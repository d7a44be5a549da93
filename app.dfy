/**
 * The `Svger` application: its state, the three messages its `update` handles,
 * the event filter that turns main-window resizes into messages, the startup
 * protocol of `init`, and what `view` and `context_drawer` show.
 */
module App {
  import opened Wrappers
  import opened Paths
  import opened Files
  import opened Layout

  /** `SVG_DIR`: the directory listed at startup. */
  const SvgDir: Path := ""

  /** Localization keys; a key stands for the text `fl!` looks up for it. */
  const AppTitleKey: string := "app-title"
  const AboutKey: string := "about"

  /** The pages the context drawer can show. */
  datatype ContextPage = About

  /** `ContextPage::title`. */
  function Title(page: ContextPage): string
  {
    match page
    case About => AboutKey
  }

  /** The entries of the "View" menu. */
  datatype MenuAction = About

  /** The messages `update` handles. */
  datatype Message =
    | LaunchUrl(url: string)
    | ToggleContextPage(page: ContextPage)
    | UpdateGridRowsCount(count: Option<nat>)

  /** `MenuAction::message`: the message a menu entry sends. */
  function MenuMessage(action: MenuAction): Message
  {
    match action
    case About => ToggleContextPage(ContextPage.About)
  }

  /** Window identifiers; `MainWindow` is `window::Id::MAIN`. */
  datatype WindowId = WindowId(id: nat)
  const MainWindow: WindowId := WindowId(0)

  datatype WindowEvent = Resized(width: nat, height: nat) | OtherWindowEvent
  datatype Event = Window(window: WindowId, event: WindowEvent) | OtherEvent

  /**
   * `subscription`: the message, if any, an event turns into. Only a resize
   * of the main window produces one, carrying the row capacity of the new width.
   */
  function Subscription(ev: Event): (m: Option<Message>)
    ensures m.Some? <==> ev.Window? && ev.window == MainWindow && ev.event.Resized?
    ensures m.Some? ==> m.value == UpdateGridRowsCount(Some(RowCapacity(ev.event.width)))
  {
    match ev
    case Window(window, event) =>
      if window == MainWindow then
        match event
        case Resized(width, _) => Some(UpdateGridRowsCount(Some(width / GridItemWidth)))
        case _ => None
      else None
    case _ => None
  }

  /** Commands handed to the runtime. */
  datatype Command = SetWindowTitle(title: string) | FetchMainWindowSize

  /**
   * What the runtime delivers once `FetchMainWindowSize` has measured the main
   * window `width` wide (the closure in `update_grid_rows_count`).
   */
  function SizeFetched(width: nat): (m: Message)
    ensures m.UpdateGridRowsCount? && m.count.Some?
    ensures m.count.value * GridItemWidth <= width < (m.count.value + 1) * GridItemWidth
  {
    UpdateGridRowsCount(Some(width / GridItemWidth))
  }

  /** The startup measurement and a later resize to the same width give the same message. */
  lemma StartupMatchesResize(width: nat, height: nat)
    ensures Subscription(Window(MainWindow, Resized(width, height))) == Some(SizeFetched(width))
  {
  }

  /** The part of the runtime's `Core` the application reads and writes. */
  datatype CoreWindow = CoreWindow(showContext: bool, contextTitle: string)

  /** The modelled state: the application's fields and the drawer flag and title of its core. */
  datatype AppState = AppState(
    contextPage: ContextPage,
    showContext: bool,
    contextTitle: string,
    svgFiles: seq<Path>,
    gridRowsCount: Option<nat>)

  /** The state `init` builds from the runtime's core and the filesystem. */
  function InitialState(core: CoreWindow, fs: FileSystem): (s: AppState)
    ensures s.contextPage == ContextPage.About && s.gridRowsCount == None
    ensures s.showContext == core.showContext && s.contextTitle == core.contextTitle
    ensures s.svgFiles == []
  {
    AppState(ContextPage.About, core.showContext, core.contextTitle, SvgFiles(fs, SvgDir), None)
  }

  /**
   * `update`: the state after one message. The file list never changes; the
   * capacity changes only on `UpdateGridRowsCount`, to exactly the value sent;
   * the drawer changes only on `ToggleContextPage`, whose page title becomes the
   * drawer title whether the drawer opens or closes.
   */
  function Step(s: AppState, msg: Message): (r: AppState)
    ensures r.svgFiles == s.svgFiles
    ensures r.gridRowsCount == if msg.UpdateGridRowsCount? then msg.count else s.gridRowsCount
    ensures !msg.ToggleContextPage? ==> r.(gridRowsCount := s.gridRowsCount) == s
    ensures msg.ToggleContextPage? ==> r.contextPage == msg.page && r.contextTitle == Title(msg.page)
  {
    match msg
    case LaunchUrl(_) => s
    case ToggleContextPage(page) =>
      var s' := if s.contextPage == page then s.(showContext := !s.showContext)
                else s.(contextPage := page, showContext := true);
      s'.(contextTitle := Title(page))
    case UpdateGridRowsCount(count) => s.(gridRowsCount := count)
  }

  /** The event loop: the messages delivered in order, one `update` each. */
  function Run(s: AppState, msgs: seq<Message>): AppState
    decreases |msgs|
  {
    if msgs == [] then s else Run(Step(s, msgs[0]), msgs[1..])
  }

  /** `Run` takes the messages in delivery order: one more message is one more `update` at the end. */
  lemma {:induction false} RunSnoc(s: AppState, msgs: seq<Message>, m: Message)
    ensures Run(s, msgs + [m]) == Step(Run(s, msgs), m)
    decreases |msgs|
  {
    if msgs == [] {
      assert [m][1..] == [];
    } else {
      assert (msgs + [m])[0] == msgs[0];
      assert (msgs + [m])[1..] == msgs[1..] + [m];
      RunSnoc(Step(s, msgs[0]), msgs[1..], m);
    }
  }

  /** With `About` the only page, a toggle always finds its page selected: it flips the drawer and nothing else but the title. */
  lemma ToggleFlipsDrawer(s: AppState, page: ContextPage)
    ensures Step(s, ToggleContextPage(page)) == s.(showContext := !s.showContext, contextTitle := Title(page))
  {
  }

  /** Toggling a page twice restores the state, except that the drawer title is that page's. */
  lemma ToggleTwice(s: AppState, page: ContextPage)
    ensures Step(Step(s, ToggleContextPage(page)), ToggleContextPage(page)) == s.(contextTitle := Title(page))
  {
  }

  /** The "About" menu entry flips the drawer and titles it "about". */
  lemma MenuAboutTogglesDrawer(s: AppState)
    ensures Step(s, MenuMessage(MenuAction.About)).showContext == !s.showContext
    ensures Step(s, MenuMessage(MenuAction.About)).contextTitle == AboutKey
  {
  }

  /** The number of `ToggleContextPage` messages in `msgs`. */
  function ToggleCount(msgs: seq<Message>): nat
  {
    if msgs == [] then 0 else (if msgs[0].ToggleContextPage? then 1 else 0) + ToggleCount(msgs[1..])
  }

  /** After any run the drawer is shown iff it was shown at the start xor an odd number of toggles arrived. */
  lemma {:induction false} RunDrawerParity(s: AppState, msgs: seq<Message>)
    ensures Run(s, msgs).showContext == (s.showContext != (ToggleCount(msgs) % 2 == 1))
    decreases |msgs|
  {
    if msgs != [] {
      RunDrawerParity(Step(s, msgs[0]), msgs[1..]);
    }
  }

  /** The file list found at startup is kept through any run: the items are immutable. */
  lemma {:induction false} RunKeepsFiles(s: AppState, msgs: seq<Message>)
    ensures Run(s, msgs).svgFiles == s.svgFiles
    decreases |msgs|
  {
    if msgs != [] {
      RunKeepsFiles(Step(s, msgs[0]), msgs[1..]);
    }
  }

  /** The value carried by the last `UpdateGridRowsCount` in `msgs`, or `initial` when there is none. */
  function LatestCount(msgs: seq<Message>, initial: Option<nat>): Option<nat>
    decreases |msgs|
  {
    if msgs == [] then initial
    else if msgs[|msgs| - 1].UpdateGridRowsCount? then msgs[|msgs| - 1].count
    else LatestCount(msgs[..|msgs| - 1], initial)
  }

  /** After any run the capacity is the one last sent, unchanged since startup if none was. */
  lemma {:induction false} RunGridRowsCount(s: AppState, msgs: seq<Message>)
    ensures Run(s, msgs).gridRowsCount == LatestCount(msgs, s.gridRowsCount)
    decreases |msgs|
  {
    if msgs != [] {
      var init, m := msgs[..|msgs| - 1], msgs[|msgs| - 1];
      assert msgs == init + [m];
      RunSnoc(s, init, m);
      RunGridRowsCount(s, init);
    }
  }

  /** Every main-window resize sets the capacity to the number of cells the new width holds. */
  lemma ResizeSetsCapacity(s: AppState, width: nat, height: nat)
    ensures var m := Subscription(Window(MainWindow, Resized(width, height)));
      m.Some? && Step(s, m.value).gridRowsCount == Some(RowCapacity(width))
  {
  }

  /** What `view` shows: the welcome caption until a capacity is known, then the grid. */
  datatype Screen = Welcome | GridScreen(rows: seq<seq<Path>>)

  function Render(s: AppState): (screen: Screen)
    ensures screen.Welcome? <==> s.gridRowsCount.None?
  {
    match s.gridRowsCount
    case None => Welcome
    case Some(n) => GridScreen(GridRows(s.svgFiles, n))
  }

  /** `context_drawer`: the page drawn in the drawer, present exactly when the drawer is shown. */
  function ContextDrawer(s: AppState): (drawn: Option<ContextPage>)
    ensures drawn.Some? <==> s.showContext
    ensures drawn.Some? ==> drawn.value == s.contextPage
  {
    if !s.showContext then None else Some(s.contextPage)
  }

  /** Right after `init` the view is the welcome caption, and the drawer follows the core's flag. */
  lemma InitialScreen(core: CoreWindow, fs: FileSystem)
    ensures Render(InitialState(core, fs)) == Welcome
    ensures ContextDrawer(InitialState(core, fs)) == if core.showContext then Some(ContextPage.About) else None
  {
  }

  /** A rendered grid shows every file exactly once, in list order, at most `n` to a row. */
  lemma GridShowsFilesInOrder(s: AppState)
    requires s.gridRowsCount.Some?
    ensures Flatten(Render(s).rows) == s.svgFiles
    ensures var n := s.gridRowsCount.value; n >= 1 ==> forall i :: 0 <= i < |Render(s).rows| ==> |Render(s).rows[i]| <= n
  {
    var n := s.gridRowsCount.value;
    FlattenGridRows(s.svgFiles, n);
    if n >= 1 {
      GridRowsShape(s.svgFiles, n);
    }
  }

  /** The application object; `showContext` and `contextTitle` live in its runtime core. */
  class Svger {
    var contextPage: ContextPage
    var showContext: bool
    var contextTitle: string
    var svgFiles: seq<Path>
    var gridRowsCount: Option<nat>

    function State(): AppState
      reads this
    {
      AppState(contextPage, showContext, contextTitle, svgFiles, gridRowsCount)
    }

    /** The struct literal of `init`. */
    constructor (core: CoreWindow, svgFiles: seq<Path>)
      ensures State() == AppState(ContextPage.About, core.showContext, core.contextTitle, svgFiles, None)
    {
      contextPage := ContextPage.About;
      showContext := core.showContext;
      contextTitle := core.contextTitle;
      this.svgFiles := svgFiles;
      gridRowsCount := None;
    }

    /**
     * `init`: list the SVG files, start with the About page and no capacity,
     * and ask the runtime to set the window title and to measure the main window.
     */
    static method Init(core: CoreWindow, fs: FileSystem) returns (app: Svger, command: seq<Command>)
      ensures fresh(app) && app.State() == InitialState(core, fs)
      ensures command == [SetWindowTitle(AppTitleKey), FetchMainWindowSize]
    {
      var files := ListSvgFiles(fs, SvgDir);
      app := new Svger(core, files);
      command := [SetWindowTitle(AppTitleKey), FetchMainWindowSize];
    }

    /** `update`: apply one message in place; no follow-up command is issued. */
    method Update(msg: Message) returns (command: seq<Command>)
      modifies this
      ensures State() == Step(old(State()), msg)
      ensures command == []
    {
      match msg {
        case LaunchUrl(_) =>
        case ToggleContextPage(page) =>
          // The same page flips the drawer; another page is selected and shown.
          // (Assigning `page` when it already is the page changes nothing.)
          contextPage, showContext := page, if contextPage == page then !showContext else true;
          contextTitle := Title(page);
        case UpdateGridRowsCount(count) =>
          gridRowsCount := count;
      }
      command := [];
    }

    /** `view`: the welcome caption, or the grid built row by row. */
    method View() returns (screen: Screen)
      ensures screen == Render(State())
    {
      match gridRowsCount {
        case None =>
          screen := Welcome;
        case Some(n) =>
          var grid, _ := BuildGrid(svgFiles, n);
          screen := GridScreen(grid.Rows());
      }
    }
  }
}
