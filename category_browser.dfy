/**
 * The filtering logic of `src/components/CategoryBrowser.tsx`: the flat
 * list of categories behind the search dropdown, the suggestions for what
 * is typed, the sections that stay on the page once a filter is applied,
 * and the handlers that move text between the input, the filter and the
 * dropdown. The category tables of `src/lib/categories.ts` are the data.
 */
module CategoryBrowser {
  import opened Common
  import opened Text

  datatype Category = Category(name: string, id: string, description: string)

  datatype Section = Section(title: string, data: seq<Category>)

  /** `{ ...cat, section: section.title }`. */
  datatype Tagged = Tagged(cat: Category, section: string)

  const CsCategories := [
    Category("Artificial Intelligence", "cs.AI", "Artificial Intelligence"),
    Category("Machine Learning", "cs.LG", "Machine Learning"),
    Category("Computer Vision", "cs.CV", "Computer Vision and Pattern Recognition"),
    Category("Computation and Language", "cs.CL", "Natural Language Processing"),
    Category("Software Engineering", "cs.SE", "Software Engineering"),
    Category("Robotics", "cs.RO", "Robotics"),
    Category("Cryptography", "cs.CR", "Cryptography and Security"),
    Category("Data Structures", "cs.DS", "Data Structures and Algorithms"),
    Category("Operating Systems", "cs.OS", "Operating Systems"),
    Category("Networking", "cs.NI", "Networking and Internet Architecture")
  ]

  const PhysicsCategories := [
    Category("Astrophysics", "astro-ph", "Astrophysics"),
    Category("Quantum Physics", "quant-ph", "Quantum Physics"),
    Category("Condensed Matter", "cond-mat", "Condensed Matter")
  ]

  const MathCategories := [
    Category("Algebraic Geometry", "math.AG", "Algebraic Geometry"),
    Category("Number Theory", "math.NT", "Number Theory"),
    Category("Probability", "math.PR", "Probability")
  ]

  const AllSections := [
    Section("COMPUTER_SCIENCE", CsCategories),
    Section("PHYSICS", PhysicsCategories),
    Section("MATHEMATICS", MathCategories)
  ]

  /** One section's categories, each tagged with the section title. */
  function Tag(s: Section): (r: seq<Tagged>)
    ensures |r| == |s.data| && forall i :: 0 <= i < |r| ==> r[i] == Tagged(s.data[i], s.title)
  {
    seq(|s.data|, i requires 0 <= i < |s.data| => Tagged(s.data[i], s.title))
  }

  /** `allSections.flatMap(...)`. */
  function AllCategories(ss: seq<Section>): seq<Tagged>
    decreases |ss|
  {
    if ss == [] then [] else Tag(ss[0]) + AllCategories(ss[1..])
  }

  function TotalSize(ss: seq<Section>): nat
    decreases |ss|
  {
    if ss == [] then 0 else |ss[0].data| + TotalSize(ss[1..])
  }

  /**
   * The flat list has one entry per category of every section, sections in
   * order; an entry is a category of a section tagged with that section's
   * title, and every such pair is an entry.
   */
  lemma {:induction false} AllCategoriesSpec(ss: seq<Section>)
    ensures |AllCategories(ss)| == TotalSize(ss)
    ensures forall t | t in AllCategories(ss) :: exists s | s in ss :: t.cat in s.data && t.section == s.title
    ensures forall s, c | s in ss && c in s.data :: Tagged(c, s.title) in AllCategories(ss)
    decreases |ss|
  {
    if ss != [] {
      AllCategoriesSpec(ss[1..]);
      var head := Tag(ss[0]);
      forall t | t in head
        ensures t.cat in ss[0].data && t.section == ss[0].title
      {
        var i :| 0 <= i < |head| && head[i] == t;
      }
      forall c | c in ss[0].data
        ensures Tagged(c, ss[0].title) in head
      {
        var i :| 0 <= i < |ss[0].data| && ss[0].data[i] == c;
        assert head[i] == Tagged(c, ss[0].title);
      }
      assert forall s | s in ss :: s == ss[0] || s in ss[1..];
    }
  }

  /** Splitting the sections splits the flat list at the same place. */
  lemma {:induction false} AllCategoriesAppend(a: seq<Section>, b: seq<Section>)
    ensures AllCategories(a + b) == AllCategories(a) + AllCategories(b)
    decreases |a|
  {
    if a == [] {
      assert a + b == b;
    } else {
      assert (a + b)[0] == a[0];
      assert (a + b)[1..] == a[1..] + b;
      AllCategoriesAppend(a[1..], b);
    }
  }

  /** The dropdown's test, given the lower-cased query. */
  function SuggestionTest(lowerQuery: string): Tagged -> bool {
    (t: Tagged) =>
      Includes(Lower(t.cat.name), lowerQuery) || Includes(Lower(t.cat.id), lowerQuery) || Includes(Lower(t.section), lowerQuery)
  }

  /** `suggestions`. */
  function Suggestions(query: string, all: seq<Tagged>): seq<Tagged> {
    if query == "" then [] else Filter(all, SuggestionTest(Lower(query)))
  }

  /**
   * Nothing is suggested for an empty query; otherwise an entry is suggested
   * exactly when its name, id or section contains the query, ignoring
   * letter case, and the suggestions keep the order of the list.
   */
  lemma SuggestionsSpec(query: string, all: seq<Tagged>, split: nat)
    requires split <= |all|
    ensures query == "" ==> Suggestions(query, all) == []
    ensures query != "" ==> forall t | t in all ::
      (t in Suggestions(query, all) <==>
        Includes(Lower(t.cat.name), Lower(query)) || Includes(Lower(t.cat.id), Lower(query))
        || Includes(Lower(t.section), Lower(query)))
    ensures query != "" ==>
      Suggestions(query, all) == Suggestions(query, all[..split]) + Suggestions(query, all[split..])
  {
    if query != "" {
      FilterSpec(all, SuggestionTest(Lower(query)));
      assert all == all[..split] + all[split..];
      FilterConcat(all[..split], all[split..], SuggestionTest(Lower(query)));
    }
  }

  /** Typing the query in capitals suggests the same entries. */
  lemma SuggestionsIgnoreCase(query: string, all: seq<Tagged>)
    ensures Suggestions(Upper(query), all) == Suggestions(query, all)
  {
    LowerOfUpper(query);
  }

  /** The page's test, given the lower-cased filter: name or id, not the section title. */
  function FilterTest(lowerFilter: string): Category -> bool {
    (c: Category) => Includes(Lower(c.name), lowerFilter) || Includes(Lower(c.id), lowerFilter)
  }

  /** Each section reduced to its matching categories, dropping the sections left empty. */
  function Narrowed(ss: seq<Section>, lowerFilter: string): (r: seq<Section>)
    ensures forall s | s in r :: s.data != []
    ensures |r| <= |ss|
    decreases |ss|
  {
    if ss == [] then []
    else
      var data := Filter(ss[0].data, FilterTest(lowerFilter));
      (if data == [] then [] else [Section(ss[0].title, data)]) + Narrowed(ss[1..], lowerFilter)
  }

  /** `filteredSections`. */
  function FilteredSections(filter: string, ss: seq<Section>): seq<Section> {
    if filter == "" then ss else Narrowed(ss, Lower(filter))
  }

  /** The categories of some sections, in order. */
  function CategoriesOf(ss: seq<Section>): seq<Category>
    decreases |ss|
  {
    if ss == [] then [] else ss[0].data + CategoriesOf(ss[1..])
  }

  /**
   * With a filter, the categories left on the page are exactly the
   * categories whose name or id contains it, in their original order.
   */
  lemma {:induction false} NarrowedCategories(ss: seq<Section>, lowerFilter: string)
    ensures CategoriesOf(Narrowed(ss, lowerFilter)) == Filter(CategoriesOf(ss), FilterTest(lowerFilter))
    decreases |ss|
  {
    if ss != [] {
      NarrowedCategories(ss[1..], lowerFilter);
      FilterConcat(ss[0].data, CategoriesOf(ss[1..]), FilterTest(lowerFilter));
      var data := Filter(ss[0].data, FilterTest(lowerFilter));
      var r := Narrowed(ss, lowerFilter);
      if data != [] {
        assert r[0].data == data && r[1..] == Narrowed(ss[1..], lowerFilter);
        assert CategoriesOf(r) == r[0].data + CategoriesOf(r[1..]);
      } else {
        assert r == Narrowed(ss[1..], lowerFilter);
      }
    }
  }

  /** Each section that stays keeps its title and is one of the input sections, in their order. */
  lemma {:induction false} NarrowedTitles(ss: seq<Section>, lowerFilter: string)
    ensures forall s | s in Narrowed(ss, lowerFilter) ::
      exists o | o in ss :: o.title == s.title && s.data == Filter(o.data, FilterTest(lowerFilter))
    decreases |ss|
  {
    if ss != [] {
      NarrowedTitles(ss[1..], lowerFilter);
      assert forall o | o in ss[1..] :: o in ss;
    }
  }

  /** Without a filter the page shows every section as it is. */
  lemma EmptyFilterShowsAll(ss: seq<Section>)
    ensures FilteredSections("", ss) == ss
  {
  }

  /** A category always survives the filter made of its own name. */
  lemma {:induction false} OwnNameKeepsCategory(ss: seq<Section>, s: Section, c: Category)
    requires s in ss && c in s.data
    ensures c in CategoriesOf(FilteredSections(c.name, ss))
  {
    if c.name != "" {
      IncludesSelf(Lower(c.name));
      NarrowedCategories(ss, Lower(c.name));
      CategoryInCategoriesOf(ss, s, c);
      FilterSpec(CategoriesOf(ss), FilterTest(Lower(c.name)));
    } else {
      CategoryInCategoriesOf(ss, s, c);
    }
  }

  lemma {:induction false} CategoryInCategoriesOf(ss: seq<Section>, s: Section, c: Category)
    requires s in ss && c in s.data
    ensures c in CategoriesOf(ss)
    decreases |ss|
  {
    if ss[0] != s {
      CategoryInCategoriesOf(ss[1..], s, c);
    }
  }

  lemma LowerRobotics()
    ensures Lower("Robotics") == "robotics"
  {
    var l := Lower("Robotics");
    assert l[0] == 'r' && l[1] == 'o' && l[2] == 'b' && l[3] == 'o';
    assert l[4] == 't' && l[5] == 'i' && l[6] == 'c' && l[7] == 's';
  }

  /** A text without the letter b, in either case, does not contain "robotics" whatever its case. */
  lemma NoRobotics(s: string)
    requires forall i :: 0 <= i < |s| ==> s[i] != 'b' && s[i] != 'B'
    ensures !Includes(Lower(s), "robotics")
  {
    assert 'b' in "robotics" by { assert "robotics"[2] == 'b'; }
    MissingCharExcludes(Lower(s), "robotics", 'b');
  }

  /** A category whose name and id lack the letter b is not kept by the filter "Robotics". */
  lemma NotRobotics(name: string, id: string, description: string)
    requires forall i :: 0 <= i < |name| ==> name[i] != 'b' && name[i] != 'B'
    requires forall i :: 0 <= i < |id| ==> id[i] != 'b' && id[i] != 'B'
    ensures !FilterTest("robotics")(Category(name, id, description))
  {
    NoRobotics(name);
    NoRobotics(id);
  }

  /** None of the physics categories has a "b" in its name or id, so none is kept by the filter "Robotics". */
  lemma PhysicsNotRobotics(i: nat)
    requires i < |PhysicsCategories|
    ensures !FilterTest("robotics")(PhysicsCategories[i])
  {
    if i == 0 {
      NotRobotics("Astrophysics", "astro-ph", "Astrophysics");
    } else if i == 1 {
      NotRobotics("Quantum Physics", "quant-ph", "Quantum Physics");
    } else {
      NotRobotics("Condensed Matter", "cond-mat", "Condensed Matter");
    }
  }

  /** No physics category passes the filter "Robotics". */
  lemma PhysicsDropsRobotics()
    ensures Filter(PhysicsCategories, FilterTest("robotics")) == []
  {
    var ps := PhysicsCategories;
    var t := FilterTest("robotics");
    PhysicsNotRobotics(0);
    PhysicsNotRobotics(1);
    PhysicsNotRobotics(2);
    assert Filter(ps[3..], t) == [];
    assert ps[2..][1..] == ps[3..];
    assert Filter(ps[2..], t) == [];
    assert ps[1..][1..] == ps[2..];
    assert Filter(ps[1..], t) == [];
  }

  lemma RoboticsKept()
    ensures Category("Robotics", "cs.RO", "Robotics") in Filter(CsCategories, FilterTest("robotics"))
  {
    var robotics := Category("Robotics", "cs.RO", "Robotics");
    IncludesSelf("robotics");
    LowerRobotics();
    assert FilterTest("robotics")(robotics);
    assert CsCategories[5] == robotics;
    FilterSpec(CsCategories, FilterTest("robotics"));
  }

  /** After computer science, only mathematics can remain. */
  lemma RoboticsTail()
    ensures forall s | s in Narrowed(AllSections[1..], "robotics") :: s.title == "MATHEMATICS"
  {
    PhysicsDropsRobotics();
    var rest := AllSections[1..];
    assert rest[1..] == AllSections[2..];
    assert Narrowed(rest, "robotics") == Narrowed(AllSections[2..], "robotics");
    NarrowedTitles(AllSections[2..], "robotics");
    assert forall o | o in AllSections[2..] :: o.title == "MATHEMATICS";
  }

  /**
   * Filtering the real tables by "Robotics" keeps the computer science
   * section with the Robotics category and drops physics.
   */
  lemma RoboticsFilter()
    ensures exists s | s in FilteredSections("Robotics", AllSections) ::
      s.title == "COMPUTER_SCIENCE" && Category("Robotics", "cs.RO", "Robotics") in s.data
    ensures forall s | s in FilteredSections("Robotics", AllSections) :: s.title != "PHYSICS"
  {
    LowerRobotics();
    RoboticsKept();
    RoboticsTail();
    var cs := Filter(CsCategories, FilterTest("robotics"));
    var r := Narrowed(AllSections, "robotics");
    assert r == [Section("COMPUTER_SCIENCE", cs)] + Narrowed(AllSections[1..], "robotics");
    assert r[0] in r;
  }

  /** The state of the browser: the text in the input, the applied filter and whether the dropdown is open. */
  class Browser {
    var query: string
    var filter: string
    var showDropdown: bool

    constructor ()
      ensures query == "" && filter == "" && !showDropdown
    {
      query, filter, showDropdown := "", "", false;
    }

    /** The dropdown is on screen when it is open, the input is not empty and something is suggested. */
    predicate DropdownVisible()
      reads this
    {
      showDropdown && query != "" && |Suggestions(query, AllCategories(AllSections))| > 0
    }

    /** The sections on the page. */
    function Shown(): seq<Section>
      reads this
    {
      FilteredSections(filter, AllSections)
    }

    /** `handleSearchChange`: the input takes the text and opens the dropdown; clearing it clears the filter. */
    method HandleSearchChange(value: string)
      modifies this
      ensures query == value && showDropdown
      ensures filter == if value == "" then "" else old(filter)
    {
      query := value;
      showDropdown := true;
      if value == "" {
        filter := "";
      }
    }

    /** `handleKeyDown`: Enter applies the input as the filter and closes the dropdown; other keys do nothing. */
    method HandleKeyDown(key: string)
      modifies this
      ensures key == "Enter" ==> filter == query && !showDropdown
      ensures key != "Enter" ==> filter == old(filter) && showDropdown == old(showDropdown)
      ensures query == old(query)
    {
      if key == "Enter" {
        filter := query;
        showDropdown := false;
      }
    }

    /** `handleSuggestionClick`: the clicked name becomes both the input and the filter, and the dropdown closes. */
    method HandleSuggestionClick(suggestion: string)
      modifies this
      ensures query == suggestion && filter == suggestion && !showDropdown
    {
      query := suggestion;
      filter := suggestion;
      showDropdown := false;
    }

    /** Focusing the input opens the dropdown. */
    method HandleFocus()
      modifies this`showDropdown
      ensures showDropdown
    {
      showDropdown := true;
    }

    /** Leaving the input closes the dropdown (after the delay that lets a click land). */
    method HandleBlur()
      modifies this`showDropdown
      ensures !showDropdown
    {
      showDropdown := false;
    }
  }

  /** After a suggestion is clicked the dropdown is gone and the clicked category is on the page. */
  method ClickShowsCategory(b: Browser, s: Section, c: Category)
    requires s in AllSections && c in s.data
    modifies b
    ensures !b.DropdownVisible() && c in CategoriesOf(b.Shown())
  {
    b.HandleSuggestionClick(c.name);
    OwnNameKeepsCategory(AllSections, s, c);
  }
}
