/** The selection state of the project browser and one step of its input loop
    (`run_app` in src/main.rs), lifted out of the blocking event loop. */
module Browser {
  import opened Wrappers
  import opened Fetcher

  /** Rust's `usize` on a 64-bit target. */
  const UsizeModulus: int := 0x1_0000_0000_0000_0000
  type Usize = x: int | 0 <= x < UsizeModulus

  /** Unsigned subtraction behaves differently in the two build profiles: a
      debug build panics on underflow, a release build wraps around. */
  datatype BuildMode = Debug | Release

  /** `a - b` on `usize`; `None` is the debug build's overflow panic. */
  function UsizeSub(mode: BuildMode, a: Usize, b: Usize): (r: Option<Usize>)
    ensures a >= b ==> r == Some(a - b)
    ensures a < b && mode == Debug ==> r.None?
    ensures a < b && mode == Release ==> r == Some(a - b + UsizeModulus)
  {
    if a >= b then Some(a - b)
    else match mode
      case Debug => None
      case Release => Some((a - b) % UsizeModulus)
  }

  /** The selection part of the list widget's state (ratatui's `ListState`);
      its scroll offset belongs to rendering and is not modelled. */
  datatype ListState = ListState(selected: Option<Usize>)

  /** `AppState`: the fetched projects, the selected index and the widget's
      mirrored selection. */
  datatype AppState = AppState(projects: seq<Project>, selectedIndex: Usize, listState: ListState)

  /** The key codes the loop tells apart; `OtherKey` is every other key code. */
  datatype KeyCode = Esc | Char(c: char) | Down | Up | OtherKey

  /** An input event: a key press, or anything else (mouse, resize, focus, paste). */
  datatype Event = Key(code: KeyCode) | NonKey

  /** What one turn of the loop does: keep going with a state, return `Ok(())`
      leaving the state as it is, or panic. */
  datatype Outcome = Continue(state: AppState) | Quit(state: AppState) | Panic

  predicate IsQuit(ev: Event)
  {
    ev == Key(Esc) || ev == Key(Char('q'))
  }

  /** The selection invariant the browser relies on: the widget mirrors the
      index, and the index names a project whenever there is one. */
  ghost predicate Valid(s: AppState)
  {
    && s.listState.selected == Some(s.selectedIndex)
    && (s.selectedIndex < |s.projects| || s.selectedIndex == 0)
  }

  /** The state `main` builds: index 0 and the widget selecting row 0, whether
      or not there is a row 0. */
  function Init(projects: seq<Project>): (s: AppState)
    ensures s.projects == projects
    ensures s.selectedIndex == 0 && s.listState.selected == Some(0)
    ensures Valid(s)
    ensures |projects| > 0 ==> s.selectedIndex < |projects|
  {
    AppState(projects, 0, ListState(Some(0)))
  }

  /** Move the selection to `i`, keeping the widget in step. */
  function Select(s: AppState, i: Usize): (r: AppState)
    ensures r.projects == s.projects
    ensures r.selectedIndex == i
    ensures r.listState.selected == Some(i)
  {
    AppState(s.projects, i, ListState(Some(i)))
  }

  /** One event handled exactly as src/main.rs writes it: Down compares the
      index with `len - 1` computed in `usize`. */
  function StepAsWritten(mode: BuildMode, s: AppState, ev: Event): (r: Outcome)
    requires |s.projects| < UsizeModulus
    ensures IsQuit(ev) <==> r.Quit?
    ensures r.Quit? ==> r.state == s
    ensures r.Panic? <==> mode == Debug && ev == Key(Down) && |s.projects| == 0
    ensures r.Continue? ==> r.state.projects == s.projects
    ensures |s.projects| > 0 ==> r == Step(s, ev)
  {
    match ev
    case NonKey => Continue(s)
    case Key(code) =>
      match code
      case Esc => Quit(s)
      case Char(c) => if c == 'q' then Quit(s) else Continue(s)
      case Down =>
        (match UsizeSub(mode, |s.projects|, 1)
         case None => Panic
         case Some(last) =>
           if s.selectedIndex < last then Continue(Select(s, s.selectedIndex + 1))
           else Continue(s))
      case Up =>
        if s.selectedIndex > 0 then Continue(Select(s, s.selectedIndex - 1))
        else Continue(s)
      case OtherKey => Continue(s)
  }

  /** One event with Down guarded by `selected_index + 1 < len`, which never
      underflows: the step the rest of the model uses. */
  function Step(s: AppState, ev: Event): (r: Outcome)
    requires |s.projects| < UsizeModulus
    ensures !r.Panic?
    ensures r.state.projects == s.projects
    ensures IsQuit(ev) <==> r.Quit?
    ensures r.Quit? ==> r.state == s
    ensures ev != Key(Down) && ev != Key(Up) ==> r.state == s
    ensures ev == Key(Down) && s.selectedIndex + 1 < |s.projects| ==>
      r.state.selectedIndex == s.selectedIndex + 1 && r.state.listState.selected == Some(s.selectedIndex + 1)
    ensures ev == Key(Down) && s.selectedIndex + 1 >= |s.projects| ==> r.state == s
    ensures ev == Key(Up) && s.selectedIndex > 0 ==>
      r.state.selectedIndex == s.selectedIndex - 1 && r.state.listState.selected == Some(s.selectedIndex - 1)
    ensures ev == Key(Up) && s.selectedIndex == 0 ==> r.state == s
    ensures Valid(s) ==> Valid(r.state)
  {
    match ev
    case NonKey => Continue(s)
    case Key(code) =>
      match code
      case Esc => Quit(s)
      case Char(c) => if c == 'q' then Quit(s) else Continue(s)
      case Down =>
        if s.selectedIndex + 1 < |s.projects| then Continue(Select(s, s.selectedIndex + 1))
        else Continue(s)
      case Up =>
        if s.selectedIndex > 0 then Continue(Select(s, s.selectedIndex - 1))
        else Continue(s)
      case OtherKey => Continue(s)
  }

  /** The loop fed a finite sequence of events: it stops at the first quit key,
      and otherwise ends in the state left by the last event. */
  function Run(s: AppState, evs: seq<Event>): (r: Outcome)
    requires |s.projects| < UsizeModulus
    ensures !r.Panic?
    ensures r.state.projects == s.projects
    ensures Valid(s) ==> Valid(r.state)
    ensures r.Quit? <==> exists i :: 0 <= i < |evs| && IsQuit(evs[i])
    decreases |evs|
  {
    if |evs| == 0 then Continue(s)
    else
      var first := Step(s, evs[0]);
      if first.Continue? then
        assert forall i :: 1 <= i < |evs| ==> evs[1..][i - 1] == evs[i];
        Run(first.state, evs[1..])
      else
        first
  }

  /** The loop as written, fed a finite sequence of events: it keeps the
      projects, and it can only panic in a debug build, on an empty list, after
      a Down press. */
  function RunAsWritten(mode: BuildMode, s: AppState, evs: seq<Event>): (r: Outcome)
    requires |s.projects| < UsizeModulus
    ensures !r.Panic? ==> r.state.projects == s.projects
    ensures r.Panic? ==>
      mode == Debug && |s.projects| == 0 && exists i :: 0 <= i < |evs| && evs[i] == Key(Down)
    decreases |evs|
  {
    if |evs| == 0 then Continue(s)
    else
      var first := StepAsWritten(mode, s, evs[0]);
      if first.Continue? then
        assert forall i :: 1 <= i < |evs| ==> evs[1..][i - 1] == evs[i];
        RunAsWritten(mode, first.state, evs[1..])
      else first
  }

  /** On a non-empty list `len - 1` cannot underflow, so whole runs of the
      loop as written and of the guarded loop agree, in both build modes. */
  lemma {:induction false} RunAgreesWhenNonEmpty(mode: BuildMode, s: AppState, evs: seq<Event>)
    requires 0 < |s.projects| < UsizeModulus
    ensures RunAsWritten(mode, s, evs) == Run(s, evs)
    decreases |evs|
  {
    if |evs| > 0 {
      var first := Step(s, evs[0]);
      if first.Continue? {
        RunAgreesWhenNonEmpty(mode, first.state, evs[1..]);
      }
    }
  }

  /** Down on an empty list in a debug build: `0 - 1` panics. */
  lemma DownOnEmptyPanicsInDebug(s: AppState)
    requires |s.projects| == 0
    ensures StepAsWritten(Debug, s, Key(Down)) == Panic
  {
  }

  /** Down on an empty list in a release build: `0 - 1` wraps to `usize::MAX`,
      so the index leaves the (empty) list and the invariant breaks. */
  lemma DownOnEmptyEscapesInRelease(s: AppState)
    requires |s.projects| == 0 && s.selectedIndex == 0
    ensures StepAsWritten(Release, s, Key(Down)) == Continue(Select(s, 1))
    ensures !Valid(Select(s, 1))
  {
  }

  /** `n` copies of one event. */
  function Repeat(ev: Event, n: nat): (r: seq<Event>)
    ensures |r| == n
    ensures forall i :: 0 <= i < n ==> r[i] == ev
  {
    if n == 0 then [] else [ev] + Repeat(ev, n - 1)
  }

  /** Pressing Down at least `len - 1 - index` times from a valid state selects
      the last project; further presses change nothing. */
  lemma {:induction false} DownSaturatesAtLast(s: AppState, n: nat)
    requires 0 < |s.projects| < UsizeModulus
    requires Valid(s)
    requires s.selectedIndex + n >= |s.projects| - 1
    ensures Run(s, Repeat(Key(Down), n)) == Continue(Select(s, |s.projects| - 1))
    decreases n
  {
    if n == 0 {
    } else {
      assert Repeat(Key(Down), n)[1..] == Repeat(Key(Down), n - 1);
      DownSaturatesAtLast(Step(s, Key(Down)).state, n - 1);
    }
  }

  /** Pressing Up at least `index` times from a valid state selects the first
      project; further presses change nothing. */
  lemma {:induction false} UpSaturatesAtFirst(s: AppState, n: nat)
    requires |s.projects| < UsizeModulus
    requires Valid(s)
    requires n >= s.selectedIndex
    ensures Run(s, Repeat(Key(Up), n)) == Continue(Select(s, 0))
    decreases n
  {
    if n == 0 {
    } else {
      assert Repeat(Key(Up), n)[1..] == Repeat(Key(Up), n - 1);
      UpSaturatesAtFirst(Step(s, Key(Up)).state, n - 1);
    }
  }
}
