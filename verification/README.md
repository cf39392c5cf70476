# gitlab_ops browser core, modelled in Dafny

`gitlab_ops` is a terminal client. It asks a GitLab server's GraphQL API for up
to 100 projects and lets the user browse them: arrow keys move a highlighted
selection, a details panel shows the selected project, and Esc or `q` quits.
Almost all of the program is I/O. This model keeps the pure logic inside it:

- **Json** (`json.dfy`): the decoded response as a JSON tree, with the three
  accessors the program uses: `get` by key, `as_str` and `as_array`. Objects are
  member lists, and lookup answers the last binding of a key.
- **Fetcher** (`fetcher.dfy`): the `Project` record and the extraction half of
  `fetch_projects`. It walks `data.projects.nodes`, maps each node to a project
  with the `"N/A"` / `"No description"` placeholders, and yields an empty list
  when the path is missing or is not an array. The transport is a parameter
  (`Result<Value, FetchError>`), and so is the caller's fallback to an empty
  list.
- **Browser** (`browser.dfy`): `AppState`, which holds the projects, the
  selected index and the list widget's mirrored selection, its initial value,
  and one step of the key-handling loop. The step comes in two forms.
  `StepAsWritten` follows the source exactly, including `len - 1` on a
  `usize`, under both build profiles. `Step` uses the guard
  `selected_index + 1 < len`. The two are proved equal on every non-empty
  list, and `Run` folds `Step` over a finite event sequence.
- **Render** (`render.dfy`): the details text of the selected project, and a
  proof that it splits back into its three labelled lines.
- **Wrappers** (`wrappers.dfy`): `Option` and `Result`.

On an empty list the program still calls `select(Some(0))` (src/main.rs:72),
so `Init` selects row 0 of an empty list as well.

## Model

| member | source | states |
|---|---|---|
| Json.Lookup | src/main.rs:198-200 | A member lookup finds nothing exactly when no member has the key. Otherwise it returns the value of the last member with that key. |
| Json.AsStr | src/main.rs:204-210 | A value reads as text exactly when it is a JSON string, and the text is that string's. |
| Json.AsArray | src/main.rs:201 | A value reads as an element list exactly when it is a JSON array, and the list is that array's. |
| Json.Get | src/main.rs:197-200 | Asking a non-object for a key yields nothing. On an object it yields a value iff some member has the key, and that value is the key's last binding. |
| Fetcher.NodesAt | src/main.rs:197-201 | The `data.projects.nodes` walk yields an array exactly when the response holds that array at that path. It yields nothing when any step is missing or the last value is not an array. |
| Fetcher.FieldOr | src/main.rs:204-210 | A field read is the member's string when the node's last binding of the key is a string. Otherwise it is the default, and exactly one string meets that description. |
| Fetcher.NodeToProject | src/main.rs:204-215 | `name` and `web_url` are the node's `name` and `webUrl` strings, or `"N/A"`. `description` is the `description` string, or `"No description"`. |
| Fetcher.MapNodes | src/main.rs:203-216 | One project per node, same length, project i made from node i. |
| Fetcher.ExtractProjects | src/main.rs:196-219 | No `data.projects.nodes` array gives the empty list. An array of N nodes gives exactly N projects, in node order. |
| Fetcher.MapNodesAppend | src/main.rs:203-216 | Extracting from concatenated node arrays gives the concatenated project lists, so order is preserved piecewise. |
| Fetcher.PushProjects | src/main.rs:203-216 | The push loop builds exactly the mapped node list. |
| Fetcher.CollectProjects | src/main.rs:196-219 | The imperative extraction (empty vector, filled only when the node array is found) equals `ExtractProjects`. |
| Fetcher.FetchProjects | src/main.rs:185-219 | The fetch fails iff the transport or body decoding failed, with that error. A decoded response always yields its extracted projects. |
| Fetcher.ProjectsOrEmpty | src/main.rs:62-65 | A failed fetch becomes the empty project list. A successful one keeps its projects. |
| Fetcher.CompleteNodeScenario | src/main.rs:203-216 | A node with all three strings gives exactly those three strings. |
| Fetcher.PartialNodeScenario | src/main.rs:204-210 | A node with only `name` gets `"No description"` and `"N/A"`. |
| Browser.UsizeSub | src/main.rs:105 | `usize` subtraction is exact without underflow. On underflow a debug build panics and a release build wraps modulo 2^64. |
| Browser.Init | src/main.rs:67-72 | The initial state keeps the projects, selects index 0 in both the index and the widget, and satisfies the selection invariant. |
| Browser.Select | src/main.rs:106-107 | Moving the selection keeps the projects, sets the index, and makes the widget's selection `Some` of that same index. The Up branch at src/main.rs:112-113 uses it too. |
| Browser.StepAsWritten | src/main.rs:98-117 | Exactly the quit keys end the loop, leaving the state unchanged. The step panics iff a debug build gets Down on an empty list. Projects never change. On a non-empty list it equals the guarded step in both build modes. |
| Browser.Step | src/main.rs:98-117 | Never panics and never changes the projects. Quit keys stop with the state untouched, and other non-arrow keys change nothing. Down and Up move by exactly one with the widget following, and are no-ops at the last and first index. The selection invariant is preserved. |
| Browser.Run | src/main.rs:94-119 | Over any finite event sequence the loop never panics and keeps the projects. It preserves the selection invariant, and it quits iff some event is a quit key. |
| Browser.RunAsWritten | src/main.rs:94-119 | The loop as written keeps the projects. It can only panic in a debug build, on an empty list, and only if some event is Down. |
| Browser.RunAgreesWhenNonEmpty | src/main.rs:94-119 | On a non-empty list whole runs of the as-written loop equal runs of the guarded loop. |
| Browser.DownOnEmptyPanicsInDebug | src/main.rs:105 | Down on an empty list panics in a debug build. |
| Browser.DownOnEmptyEscapesInRelease | src/main.rs:105-107 | In a release build, Down on an empty list moves the index to 1 and the widget to `Some(1)`, which breaks the selection invariant. |
| Browser.DownSaturatesAtLast | src/main.rs:104-109 | From a valid state, enough Down presses select the last project, and any further presses are no-ops. |
| Browser.UpSaturatesAtFirst | src/main.rs:110-115 | From a valid state, enough Up presses select the first project, and any further presses are no-ops. |
| Render.DetailLines | src/main.rs:148-153 | The three lines are `Name: `, `Description: ` and `Web URL: ` followed by the matching field, so each field can be read back from its line. |
| Render.Details | src/main.rs:147-153 | Details text exists iff the selected index names a project, and always does for a valid state with a non-empty list. |
| Render.DetailsAreLabelledLines | src/main.rs:147-153 | If no field holds a line break, splitting the details text at line breaks gives back exactly the three labelled lines. |

## Findings

| source | as written | input that shows it | evidently intended | confidence | as-written member | corrected member |
|---|---|---|---|---|---|---|
| src/main.rs:105 | `if app_state.selected_index < app_state.projects.len() - 1` | Press Down with an empty project list, which happens whenever the fetch fails. A debug build panics on `0 - 1`. A release build wraps to `usize::MAX` and moves the index to 1, outside the list. | Move only while `selected_index + 1 < len`, so Down on an empty list is a no-op | high (not executed) | Browser.StepAsWritten | Browser.Step |

The as-written half is `Browser.StepAsWritten`. Two counterexample lemmas
exhibit the discrepancy: `Browser.DownOnEmptyPanicsInDebug` and
`Browser.DownOnEmptyEscapesInRelease`. The corrected half is `Browser.Step`:
it never panics and preserves the selection invariant, and so does
`Browser.Run` over any event sequence. The contract of
`Browser.StepAsWritten` and the lemma `Browser.RunAgreesWhenNonEmpty` show the
fix changes nothing on a non-empty list.

## Left out

- Credentials: reading `GITLAB_TOKEN`/`GITLAB_HOST` from the environment, the stdin prompt, the append to `.env`, and the exit on blank input (src/main.rs:39-51, 223-272). This is process environment and file I/O.
- The HTTP request: the fixed GraphQL query, `first: 100`, bearer auth, the tokio runtime and JSON decoding of the body (src/main.rs:165-194). This is network I/O and library code. The model takes its outcome as a `Result<Value, FetchError>` parameter.
- The JSON decoder itself. Numbers are modelled as reals, since extraction only asks whether a value is a string.
- Terminal setup and restore: raw mode, the alternate screen and the cursor (src/main.rs:54-59, 77-86). This is terminal I/O.
- The ratatui layout and widgets: the 50/50 split, borders, titles, highlight style, and the list items built from project names (src/main.rs:124-145, 154-156). The widget's scroll offset is also left out. Only the selection part of `ListState` is modelled.
- The draw's effect on the widget state. `render_ui` takes `&mut AppState` and hands `&mut app_state.list_state` to the list widget on every turn (src/main.rs:95, 123, 144). ratatui's stateful render may rewrite the selection, for example clearing it for an empty list or clamping an out-of-range one. That is library behaviour and is not modelled. So `Valid`'s "the widget mirrors the index", and the `Some(1)` in `DownOnEmptyEscapesInRelease`, describe the state between a key step and the next draw.
- The failure log: `eprintln!("Failed to fetch projects: …")` at src/main.rs:63 is standard-error output. `ProjectsOrEmpty` models only the substitution of the empty list.
- The blocking `event::read()` loop and its I/O errors (src/main.rs:94-97). The model is one step per event plus a fold over a finite event list.
- Render.DetailsAreLabelledLines: a field that itself holds a line break makes the panel show more than three lines. The lemma assumes the fields hold no line break and says nothing about that case.
