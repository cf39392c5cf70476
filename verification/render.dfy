/** The one piece of `render_ui` (src/main.rs) that is not widget layout: the
    text of the details panel for the selected project. */
module Render {
  import opened Wrappers
  import opened Fetcher
  import opened Browser

  const NameLabel: string := "Name: "
  const DescriptionLabel: string := "Description: "
  const WebUrlLabel: string := "Web URL: "

  /** `text` cut at every `sep`, like Rust's `str::split` with a character:
      `k` separators give `k + 1` pieces, none containing `sep`. */
  function Split(text: string, sep: char): (r: seq<string>)
    ensures |r| >= 1
    ensures forall i :: 0 <= i < |r| ==> sep !in r[i]
    decreases |text|
  {
    if |text| == 0 then [""]
    else
      var rest := Split(text[1..], sep);
      if text[0] == sep then [""] + rest
      else [[text[0]] + rest[0]] + rest[1..]
  }

  /** The pieces glued back together with `sep` between neighbours. */
  function Join(parts: seq<string>, sep: char): (r: string)
    requires |parts| >= 1
    decreases |parts|
  {
    if |parts| == 1 then parts[0]
    else parts[0] + [sep] + Join(parts[1..], sep)
  }

  /** A piece without a separator splits into itself. */
  lemma {:induction false} SplitWithoutSeparator(a: string, sep: char)
    requires sep !in a
    ensures Split(a, sep) == [a]
    decreases |a|
  {
    if |a| > 0 {
      assert sep !in a[1..] by {
        forall k | 0 <= k < |a[1..]| ensures a[1..][k] != sep {
          assert a[1..][k] == a[k + 1];
        }
      }
      SplitWithoutSeparator(a[1..], sep);
      assert [a[0]] + a[1..] == a;
    }
  }

  /** Splitting stops at the first separator and carries on after it. */
  lemma {:induction false} SplitAtFirstSeparator(a: string, b: string, sep: char)
    requires sep !in a
    ensures Split(a + [sep] + b, sep) == [a] + Split(b, sep)
    decreases |a|
  {
    if |a| == 0 {
      assert a + [sep] + b == [sep] + b;
      assert ([sep] + b)[1..] == b;
    } else {
      var t := a + [sep] + b;
      assert t[0] == a[0];
      assert t[1..] == a[1..] + [sep] + b;
      assert sep !in a[1..] by {
        forall k | 0 <= k < |a[1..]| ensures a[1..][k] != sep {
          assert a[1..][k] == a[k + 1];
        }
      }
      SplitAtFirstSeparator(a[1..], b, sep);
      assert [a[0]] + a[1..] == a;
    }
  }

  /** Joining pieces free of the separator and splitting again gives the pieces back. */
  lemma {:induction false} SplitJoin(parts: seq<string>, sep: char)
    requires |parts| >= 1
    requires forall i :: 0 <= i < |parts| ==> sep !in parts[i]
    ensures Split(Join(parts, sep), sep) == parts
    decreases |parts|
  {
    if |parts| == 1 {
      SplitWithoutSeparator(parts[0], sep);
    } else {
      SplitJoin(parts[1..], sep);
      SplitAtFirstSeparator(parts[0], Join(parts[1..], sep), sep);
      assert [parts[0]] + parts[1..] == parts;
    }
  }

  /** The three labelled lines shown for one project. */
  function DetailLines(p: Project): (r: seq<string>)
    ensures |r| == 3
    ensures |NameLabel| <= |r[0]| && r[0][..|NameLabel|] == NameLabel && r[0][|NameLabel|..] == p.name
    ensures |DescriptionLabel| <= |r[1]| && r[1][..|DescriptionLabel|] == DescriptionLabel && r[1][|DescriptionLabel|..] == p.description
    ensures |WebUrlLabel| <= |r[2]| && r[2][..|WebUrlLabel|] == WebUrlLabel && r[2][|WebUrlLabel|..] == p.webUrl
  {
    [NameLabel + p.name, DescriptionLabel + p.description, WebUrlLabel + p.webUrl]
  }

  /** The details text: the `format!` of the selected project, present only
      while the index names a project (`projects.get(selected_index)`). */
  function Details(s: AppState): (r: Option<string>)
    ensures r.Some? <==> s.selectedIndex < |s.projects|
    ensures Valid(s) && |s.projects| > 0 ==> r.Some?
  {
    if s.selectedIndex < |s.projects| then
      var p := s.projects[s.selectedIndex];
      Some(NameLabel + p.name + "\n" + DescriptionLabel + p.description + "\n" + WebUrlLabel + p.webUrl)
    else
      None
  }

  /** When no field of the selected project holds a line break, the details
      text is exactly its three labelled lines, and each field reads back from
      its line. */
  lemma DetailsAreLabelledLines(s: AppState)
    requires s.selectedIndex < |s.projects|
    requires var p := s.projects[s.selectedIndex];
      '\n' !in p.name && '\n' !in p.description && '\n' !in p.webUrl
    ensures Split(Details(s).value, '\n') == DetailLines(s.projects[s.selectedIndex])
  {
    var p := s.projects[s.selectedIndex];
    var lines := DetailLines(p);
    assert Details(s).value == Join(lines, '\n') by {
      assert lines[1..][1..] == [lines[2]];
      assert Join(lines[1..], '\n') == lines[1] + ['\n'] + lines[2];
    }
    forall i | 0 <= i < 3 ensures '\n' !in lines[i] {
      assert '\n' !in NameLabel && '\n' !in DescriptionLabel && '\n' !in WebUrlLabel;
    }
    SplitJoin(lines, '\n');
  }
}
