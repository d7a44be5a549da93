# svger core, modelled in Dafny

svger is a COSMIC desktop application that lists the SVG files of one directory
and shows them in a grid whose row length follows the window width. This project
models the logic of `src/app.rs`:

- `Paths` — the parts of Rust's `std::path` that the file filter relies on:
  `PathBuf::push` of an entry name, `Path::file_name` and `Path::extension`.
- `Files` — `list_svg_files` over an abstract filesystem. A directory may be
  readable or not, and each of its entries is either an I/O error or a name
  with an "is a regular file" answer. The method's loop is proved against the
  specification function `SvgFiles`.
- `Layout` — `GRID_ITEM_WIDTH`, the width → row-capacity division, and the
  row-breaking loop of `view`. That loop (`BuildGrid`) is proved against the
  rows function `GridRows`, and the lemmas give the shape of those rows.
- `App` — the messages, `MenuAction::message`, the `subscription` event filter,
  the `init` startup protocol, `update` both as a reducer (`Step`) and as the
  in-place method `Svger.Update`, what `view` and `context_drawer` show, and
  lemmas about runs of many messages.

`Svger` is a class whose fields `update` changes in place. The drawer flag
(`core.window.show_context`) and the drawer title belong to the runtime's
`Core` and are plain fields here. `State()` gives the abstract state. Each
method ties `State()` to the reducer `Step` or to the view function `Render`.

Behaviour of the code that a reader might not expect, and that the model keeps:

- The capacity is not clamped. A window narrower than 256 stores `Some(0)`. With
  capacity 0 the break counter is at least 1 whenever it is compared, so no row
  break happens and every file lands in one row. The grid is still drawn.
- When the number of files is a multiple of the capacity, `insert_row` is also
  called after the last file. The model's list of rows then ends with an empty
  segment that records this break. What the grid widget draws for it is not
  modelled.
- The drawer state is a selected page plus a shown flag, not a single
  "hidden or showing page p" value. Toggling the selected page only flips the flag.
- `SVG_DIR` is the empty path. `Path::new("").is_dir()` is false because the
  metadata query on an empty path fails. So `init` always starts with no files
  (`InitialState` proves `svgFiles == []`).

## Model

| member | source | states |
|---|---|---|
| `Paths.LastIndexOfSpec` | src/app.rs:79 | the split point used for extensions is the last '.', with none after it, and is absent exactly when the name has no '.' |
| `Paths.FileNameOfJoin` | src/app.rs:78 | the file name of an entry's path (directory joined with the entry name) is the entry name |
| `Paths.SvgExtensionIff` | src/app.rs:79 | `extension() == "svg"` holds iff the file name is longer than ".svg" and ends with ".svg"; ".svg" alone, "x.SVG" and "x.svg.png" do not match |
| `Files.SvgEntryIff` | src/app.rs:79 | a readable entry is kept iff it is a regular file whose name ends with ".svg" after at least one other character (case-sensitive) |
| `Files.ListSvgFiles` | src/app.rs:71-87 | the loop returns exactly `SvgFiles`: nothing for a non-directory or unreadable path, otherwise the SVG entries in enumeration order |
| `Files.SvgEntriesSound` | src/app.rs:77-82 | every returned path is the path of some readable entry that is a regular file with extension "svg" |
| `Files.SvgEntriesComplete` | src/app.rs:77-82 | every readable entry that is a regular file with extension "svg" has its path returned |
| `Files.NoSvgNameListsNothing` | src/app.rs:77-82 | unreadable entries, entries that are not regular files, and files not named "<something>.svg" contribute nothing |
| `Files.SvgEntriesAppend` | src/app.rs:77-82 | the filter keeps enumeration order: listing `a ++ b` is listing `a` followed by listing `b` |
| `Files.SvgEntriesBound` | src/app.rs:77-82 | at most one path per entry, and nothing at all when no entry is an SVG file |
| `Files.NotADirectoryListsNothing` | src/app.rs:75-76 | a path that is not a directory, or whose `read_dir` fails, gives an empty list |
| `Files.ListedFilesEndInSvg` | src/app.rs:79-80 | every returned path's file name ends with ".svg" |
| `Files.ExampleListing` | src/app.rs:71-87 | a directory with "a.svg", "b.png", an unreadable entry, "c.SVG" and the subdirectory "sub" lists only "a.svg" |
| `Layout.RowCapacity` | src/app.rs:243-244 | the capacity `n` of a width `w` is the floor of `w / 256`: `n * 256 <= w < (n + 1) * 256`, and it is 0 iff `w < 256` |
| `Layout.RowCapacityMonotone` | src/app.rs:243-244 | a wider window never gets a smaller capacity |
| `Layout.BuildGrid` | src/app.rs:159-184 | the loop pushes every file in order and breaks a row each time the counter reaches `n`; the rows are `GridRows(files, n)` (one row holding every file when `n == 0`), and `insert_row` is called `|files| / n` times (never when `n == 0`); the counter stays below `n` |
| `Layout.FlattenGridRows` | src/app.rs:161-184 | concatenating the rows gives back the files exactly, for every capacity including 0 |
| `Layout.GridRowsShape` | src/app.rs:177-183 | with `n >= 1` there are `|files| / n + 1` rows, every row but the last has exactly `n` files, and the last has `|files| % n` |
| `Layout.ExampleFiveItems` | src/app.rs:159-184 | five files in a 600-wide window are laid out as [1, 2], [3, 4], [5] |
| `App.Subscription` | src/app.rs:237-255 | an event produces a message iff it is a resize of the main window, and that message is `UpdateGridRowsCount(Some(width / 256))` |
| `App.SizeFetched` | src/app.rs:290-299 | the startup measurement delivers `UpdateGridRowsCount(Some(n))` with `n` the floor of the measured width over 256 |
| `App.StartupMatchesResize` | src/app.rs:290-299 | the startup measurement and a main-window resize to the same width deliver the same message |
| `App.ResizeSetsCapacity` | src/app.rs:240-246 | handling the message of a main-window resize sets the capacity to `RowCapacity(width)` |
| `App.InitialState` | src/app.rs:121-128 | `init` selects the About page, has no capacity, keeps the core's drawer flag and title, and lists no files (the empty path is not a directory) |
| `App.Svger.Init` | src/app.rs:121-133 | `init` builds `InitialState` and batches two commands, with no order between them: set the window title to "app-title", and measure the main window |
| `App.Svger.constructor` | src/app.rs:122-128 | the struct literal of `init`: About page, the given files, no capacity, the core's drawer flag and title |
| `App.Step` | src/app.rs:201-224 | one `update`: the files never change, the capacity becomes exactly the value sent (including `Some(0)`) and changes on nothing else, `LaunchUrl` changes nothing, a toggle selects its page and sets the drawer title to that page's title |
| `App.Svger.Update` | src/app.rs:201-224 | updating in place gives `Step` of the old state, and no follow-up command |
| `App.ToggleFlipsDrawer` | src/app.rs:206-217 | a toggle of the selected page flips the drawer flag, keeps the page and sets the title, even when the drawer closes (with `About` the only page every toggle is this case) |
| `App.ToggleTwice` | src/app.rs:207-209 | toggling a page twice restores the state, apart from the drawer title, which is that page's title |
| `App.MenuAboutTogglesDrawer` | src/app.rs:64-68 | the "About" menu entry sends a toggle of the About page, which flips the drawer and titles it "about" |
| `App.RunDrawerParity` | src/app.rs:206-214 | after any sequence of messages the drawer is shown iff it was shown at the start xor an odd number of toggles arrived |
| `App.RunKeepsFiles` | src/app.rs:201-224 | no sequence of messages changes the file list |
| `App.RunGridRowsCount` | src/app.rs:219-221 | after any sequence of messages the capacity is the one last sent, or the starting one when none was sent |
| `App.Render` | src/app.rs:154-157 | the view is the welcome caption iff no capacity is known |
| `App.Svger.View` | src/app.rs:154-196 | `view` returns `Render` of the current state: the welcome caption, or the rows `BuildGrid` makes of the files |
| `App.GridShowsFilesInOrder` | src/app.rs:161-184 | a rendered grid shows every file exactly once and in list order, with at most `n` files to a row when `n >= 1` |
| `App.ContextDrawer` | src/app.rs:227-235 | drawer content is produced iff the drawer flag is set, and it is the selected page |
| `App.InitialScreen` | src/app.rs:155-157 | right after `init` the view is the welcome caption, and the drawer is drawn iff the core's flag is set |

## Left out

- What the grid widget draws for an empty row segment is not modelled.
- Widgets and styling are not modelled: the SVG widget, captions, spacing, alignment, `scrollable`, `container` and the About page (`about`). A grid cell is the file's path, and a drawer is the page it shows.
- `fl!` localization is not modelled. A localized text is its key: "about", "app-title".
- `set_window_title` is recorded as the command `init` returns. Setting the core's header title is not modelled.
- `open::that_detached` is not modelled. It is an OS call and `update` discards its result, so `LaunchUrl` changes no modelled state.
- The filesystem is an abstract map from directory paths to listings. Real `is_dir`, `read_dir` and `is_file` calls are not modelled. `is_file` is the `isFile` answer attached to each entry.
- Rust path rules beyond what `list_svg_files` meets are not modelled. This covers trailing-separator normalisation, "." components, absolute entry names and non-UTF-8 names. `FileNameOfJoin` assumes an entry name contains no '/', as names from `read_dir` never do.
- `window::fetch_size`, `Command::batch` and the asynchronous delivery of their results are not modelled. `SizeFetched` is the message the measurement finally delivers.
- The `f32 as usize` cast of the window width is not modelled. Widths are natural numbers.
- `key_binds`, `header_start`'s menu bar, `APP_ID` and the `core`/`core_mut` accessors have no behaviour to model.
- The `p != context_page` branch of `update` cannot be reached, because `ContextPage` has the single variant `About`. `Step` and `Svger.Update` write that branch as the source does, but no lemma states its effect. Such a lemma would have no input to apply to.
