/**
 * The project catalog and its rendering: `populateProjects` and
 * `createProjectCard`.
 *
 * The catalog is a fixed, ordered list of records. Rendering turns each record
 * into a card whose class attribute is "project-card <category>" and appends the
 * cards to the grid one by one, in catalog order. The card's inner markup is
 * generated from the record and is kept here as the record itself.
 */
module Catalog {

  /** One entry of `projectsData`. */
  datatype ProjectRecord = ProjectRecord(
    title: string,
    description: string,
    image: string,
    technologies: seq<string>,
    category: string,
    github: string,
    demo: string)

  /** A rendered card: the tokens of its class attribute, and the record its
      markup shows. */
  datatype Card = Card(classes: set<string>, shows: ProjectRecord)

  // ----- class attributes -----

  /** The separators of a class attribute (ASCII whitespace). */
  predicate IsClassSeparator(c: char) {
    c == ' ' || c == '\t' || c == '\n' || c == '\U{000C}' || c == '\r'
  }

  /** A single class token: non-empty, with no separator inside. */
  predicate IsToken(w: string) {
    w != [] && forall i :: 0 <= i < |w| ==> !IsClassSeparator(w[i])
  }

  /** The tokens of `s`, given that `cur` is the token read so far. */
  function TokensFrom(s: string, cur: string): (r: set<string>)
    ensures (forall i :: 0 <= i < |cur| ==> !IsClassSeparator(cur[i])) ==>
      forall t :: t in r ==> IsToken(t)
    decreases |s|
  {
    if s == [] then (if cur == [] then {} else {cur})
    else if IsClassSeparator(s[0]) then (if cur == [] then {} else {cur}) + TokensFrom(s[1..], [])
    else TokensFrom(s[1..], cur + [s[0]])
  }

  /** The class set a `className` assignment gives an element. */
  function ClassTokens(className: string): (r: set<string>)
    ensures forall t :: t in r ==> IsToken(t)
    ensures IsToken(className) ==> r == {className}
  {
    if IsToken(className) then
      TokensFromWord(className, [], []);
      assert className + [] == className && [] + className == className;
      TokensFrom(className, [])
    else
      TokensFrom(className, [])
  }

  /** A word without separators is read as one piece. */
  lemma {:induction false} TokensFromWord(w: string, rest: string, cur: string)
    requires forall i :: 0 <= i < |w| ==> !IsClassSeparator(w[i])
    ensures TokensFrom(w + rest, cur) == TokensFrom(rest, cur + w)
    decreases |w|
  {
    if w != [] {
      assert (w + rest)[0] == w[0];
      assert (w + rest)[1..] == w[1..] + rest;
      TokensFromWord(w[1..], rest, cur + [w[0]]);
      assert cur + [w[0]] + w[1..] == cur + w;
    } else {
      assert w + rest == rest && cur + w == cur;
    }
  }

  /** "project-card " followed by any text gives the class "project-card"
      and the classes of that text. */
  lemma ClassTokensOfCard(category: string)
    ensures ClassTokens("project-card " + category) == {"project-card"} + ClassTokens(category)
  {
    var head := "project-card";
    assert "project-card " + category == head + ([' '] + category);
    TokensFromWord(head, [' '] + category, []);
    assert ([' '] + category)[1..] == category;
    assert [] + head == head;
  }

  // ----- createProjectCard / populateProjects -----

  /** `createProjectCard(project)`: the card shows the record and carries
      the class "project-card"; with a single-token category its classes are
      exactly "project-card" and that category. */
  function CreateProjectCard(p: ProjectRecord): (r: Card)
    ensures r.shows == p
    ensures "project-card" in r.classes
    ensures forall t :: t in r.classes ==> IsToken(t)
    ensures IsToken(p.category) ==> r.classes == {"project-card", p.category}
  {
    ClassTokensOfCard(p.category);
    Card(ClassTokens("project-card " + p.category), p)
  }

  /** The cards for `records`, one per record, in order. */
  function CardsFor(records: seq<ProjectRecord>): seq<Card> {
    seq(|records|, i requires 0 <= i < |records| => CreateProjectCard(records[i]))
  }

  /** Rendering gives one card per record, in catalog order, each with the
      classes "project-card" and its record's category. */
  lemma CardsFollowCatalog(records: seq<ProjectRecord>)
    requires forall i :: 0 <= i < |records| ==> IsToken(records[i].category)
    ensures |CardsFor(records)| == |records|
    ensures forall i :: 0 <= i < |records| ==>
      CardsFor(records)[i].shows == records[i] &&
      CardsFor(records)[i].classes == {"project-card", records[i].category}
  {
  }

  /** The element `#projects-grid`: its children, in document order. */
  class Grid {
    var children: seq<Card>

    constructor (initial: seq<Card>)
      ensures children == initial
    {
      children := initial;
    }

    /** `appendChild(card)` */
    method AppendChild(c: Card)
      modifies this
      ensures children == old(children) + [c]
    {
      children := children + [c];
    }
  }

  /** The `forEach` loop of `populateProjects`: creates and appends one card
      per record. A missing grid (`null`) makes the first `appendChild` throw,
      so nothing is appended and the loop ends unless there was nothing to do. */
  method AppendCards(grid: Grid?, records: seq<ProjectRecord>) returns (ok: bool)
    modifies grid
    ensures ok <==> grid != null || records == []
    ensures grid != null ==> grid.children == old(grid.children) + CardsFor(records)
  {
    if grid == null {
      ok := records == [];
      return;
    }
    var i := 0;
    while i < |records|
      invariant 0 <= i <= |records|
      invariant grid.children == old(grid.children) + CardsFor(records)[..i]
    {
      var card := CreateProjectCard(records[i]);
      grid.AppendChild(card);
      assert CardsFor(records)[..i + 1] == CardsFor(records)[..i] + [card];
      i := i + 1;
    }
    assert CardsFor(records)[..|records|] == CardsFor(records);
    ok := true;
  }

  /** `populateProjects()`: renders the fixed catalog into the grid. */
  method PopulateProjects(grid: Grid?) returns (ok: bool)
    modifies grid
    ensures ok <==> grid != null
    ensures grid != null ==> |grid.children| == |old(grid.children)| + |ProjectsData|
    ensures grid != null ==> grid.children == old(grid.children) + CardsFor(ProjectsData)
  {
    ok := AppendCards(grid, ProjectsData);
  }

  /** `projectsData`: the eight projects, in page order. */
  const ProjectsData: seq<ProjectRecord> := [
    ProjectRecord(
      "E-Commerce Platform",
      "Full-stack web application built with React and Node.js. Features include user authentication, product catalog, shopping cart, and payment integration.",
      "🛒",
      ["React", "Node.js", "MongoDB", "Express", "Stripe"],
      "web",
      "https://github.com/yourusername/ecommerce-platform",
      "https://your-ecommerce-demo.com"),
    ProjectRecord(
      "Task Management App",
      "Mobile-first task management application with real-time synchronization. Built using React Native with Firebase backend.",
      "📱",
      ["React Native", "Firebase", "Redux", "TypeScript"],
      "mobile",
      "https://github.com/yourusername/task-app",
      "https://your-task-app-demo.com"),
    ProjectRecord(
      "Data Visualization Dashboard",
      "Interactive dashboard for visualizing complex datasets. Built with Python, D3.js, and featuring machine learning predictions.",
      "📊",
      ["Python", "D3.js", "Flask", "Pandas", "Scikit-learn"],
      "data",
      "https://github.com/yourusername/data-dashboard",
      "https://your-dashboard-demo.com"),
    ProjectRecord(
      "Weather Forecast App",
      "Real-time weather application with geolocation support and 7-day forecasts. Integrates with multiple weather APIs.",
      "🌤️",
      ["JavaScript", "HTML5", "CSS3", "Weather API"],
      "web",
      "https://github.com/yourusername/weather-app",
      "https://your-weather-demo.com"),
    ProjectRecord(
      "Fitness Tracker",
      "Mobile app for tracking workouts and athletic performance. Features GPS tracking, workout analytics, and social sharing.",
      "🏃‍♂️",
      ["React Native", "GPS API", "Chart.js", "Firebase"],
      "mobile",
      "https://github.com/yourusername/fitness-tracker",
      "https://your-fitness-demo.com"),
    ProjectRecord(
      "Algorithm Visualizer",
      "Educational tool for visualizing sorting and pathfinding algorithms. Interactive animations help understand algorithm complexity.",
      "🧮",
      ["JavaScript", "Canvas API", "CSS Animations"],
      "other",
      "https://github.com/yourusername/algorithm-visualizer",
      "https://your-algo-demo.com"),
    ProjectRecord(
      "Chat Application",
      "Real-time messaging application with rooms, file sharing, and emoji support. Built with Socket.io and React.",
      "💬",
      ["React", "Socket.io", "Node.js", "MongoDB"],
      "web",
      "https://github.com/yourusername/chat-app",
      "https://your-chat-demo.com"),
    ProjectRecord(
      "Machine Learning Model",
      "Predictive model for sports performance analysis. Uses historical data to predict race times and training recommendations.",
      "🤖",
      ["Python", "TensorFlow", "Jupyter", "NumPy"],
      "data",
      "https://github.com/yourusername/ml-sports-model",
      "https://your-ml-demo.com")
  ]

  /** The catalog's categories, in order; each is a single class token. */
  lemma CatalogCategories()
    ensures |ProjectsData| == 8
    ensures seq(8, i requires 0 <= i < 8 => ProjectsData[i].category) ==
      ["web", "mobile", "data", "web", "mobile", "other", "web", "data"]
    ensures forall i :: 0 <= i < |ProjectsData| ==> IsToken(ProjectsData[i].category)
  {
    var cats := seq(8, i requires 0 <= i < 8 => ProjectsData[i].category);
    assert cats == ["web", "mobile", "data", "web", "mobile", "other", "web", "data"];
  }
}
