/** The texts of a release: scripts/polis_release.py, `render_notes` and `tag_annotation`. */
module ReleaseNotes {
  import opened ReleasePlan
  import PlanMarkers
  import Text

  datatype PrNote = PrNote(number: nat, title: string, mergedAt: string)
  datatype CommitNote = CommitNote(commit: string, title: string)
  datatype Notes = Notes(promotion: nat, prs: seq<PrNote>, direct: seq<CommitNote>)

  function PreviousOf(plan: Plan): string {
    if plan.previousTag != "" then plan.previousTag else plan.previous
  }

  function Short(commit: string): string {
    if |commit| > 12 then commit[..12] else commit
  }

  function Bullets(lines: seq<string>, open: string, close: string): (r: seq<string>)
    ensures |r| == |lines|
  {
    seq(|lines|, i requires 0 <= i < |lines| => "- " + open + lines[i] + close)
  }

  function PrLines(prs: seq<PrNote>, base: string): (r: seq<string>)
    ensures |r| == |prs|
  {
    seq(|prs|, i requires 0 <= i < |prs| =>
      "- " + PlanMarkers.Markdown(prs[i].title) + " ([PR #" + Text.Dec(prs[i].number) + "](" + base + "/pull/"
      + Text.Dec(prs[i].number) + "))")
  }

  function CommitLines(direct: seq<CommitNote>, base: string): (r: seq<string>)
    ensures |r| == |direct|
  {
    seq(|direct|, i requires 0 <= i < |direct| =>
      "- " + PlanMarkers.Markdown(direct[i].title) + " ([" + Short(direct[i].commit) + "](" + base + "/commit/"
      + direct[i].commit + "))")
  }

  function SchemaLine(plan: Plan): string {
    if plan.lines != [] then "schema: yes" else "schema: no"
  }

  function OrNone(lines: seq<string>): seq<string> {
    if lines == [] then ["none"] else lines
  }

  function NoteLines(repo: string, plan: Plan, stable: string, notes: Notes): seq<string> {
    var base := "https://github.com/" + repo;
    ["Polis " + plan.version, "", "Previous: " + PreviousOf(plan), "Commit: " + stable,
     "Promotion: " + base + "/pull/" + Text.Dec(notes.promotion), SchemaLine(plan), "", "Migrations:"]
    + OrNone(Bullets(plan.lines, "`", "`")) + ["", "Changes:"] + PrLines(notes.prs, base)
    + (if notes.direct == [] then [] else
         ["", "Commits without one verified PR association (review explicitly):"] + CommitLines(notes.direct, base))
    + ["", "[Compare](" + base + "/compare/" + PreviousOf(plan) + "..." + stable + ")",
       "[Migration guide](" + base + "/blob/" + stable + "/docs/migrations.md)", ""]
  }

  function RenderNotes(repo: string, plan: Plan, stable: string, notes: Notes): string {
    Text.Join(NoteLines(repo, plan, stable, notes), "\n")
  }

  function TagAnnotation(repo: string, plan: Plan, stable: string, notes: Notes): string {
    Text.Join(
      ["Polis " + plan.version, "Previous: " + PreviousOf(plan), "Stable: " + stable, "Source: " + plan.candidate,
       "Promotion: https://github.com/" + repo + "/pull/" + Text.Dec(notes.promotion), SchemaLine(plan), "Migrations:"]
      + OrNone(Bullets(plan.lines, "", "")), "\n") + "\n"
  }

  /** `needle in text`. */
  predicate Contains(text: string, needle: string) {
    PlanMarkers.Index(text, needle).Some?
  }

  lemma {:induction false} JoinHolds(lines: seq<string>, sep: string, k: nat) returns (front: string, back: string)
    requires k < |lines|
    ensures Text.Join(lines, sep) == front + lines[k] + back
  {
    if |lines| == 1 {
      front, back := "", "";
    } else if k == 0 {
      front, back := "", sep + Text.Join(lines[1..], sep);
    } else {
      var f, b := JoinHolds(lines[1..], sep, k - 1);
      front, back := lines[0] + sep + f, b;
    }
  }

  /** Rendered notes always state the schema, which publication asks of them. */
  lemma NotesStateSchema(repo: string, plan: Plan, stable: string, notes: Notes)
    ensures Contains(RenderNotes(repo, plan, stable, notes), "schema: ")
  {
    var lines := NoteLines(repo, plan, stable, notes);
    var front, back := JoinHolds(lines, "\n", 5);
    var text := RenderNotes(repo, plan, stable, notes);
    assert lines[5] == SchemaLine(plan);
    assert "schema: " <= lines[5];
    PlanMarkers.AtSlice(text, "schema: ", |front|);
    assert text[|front|..|front| + 8] == lines[5][..8];
  }

  // ----- What the notes list

  /** The text has this as one of its inner lines. */
  ghost predicate HasLine(text: string, line: string) {
    exists front, back :: text == front + "\n" + line + "\n" + back
  }

  lemma {:induction false} InnerLine(lines: seq<string>, k: nat)
    requires 0 < k < |lines| - 1
    ensures HasLine(Text.Join(lines, "\n"), lines[k])
  {
    var rest := Text.Join(lines[1..], "\n");
    var text := Text.Join(lines, "\n");
    assert text == lines[0] + "\n" + rest;
    if k == 1 {
      var back := Text.Join(lines[2..], "\n");
      assert lines[1..][1..] == lines[2..] && lines[1..][0] == lines[1];
      assert text == lines[0] + "\n" + lines[1] + "\n" + back;
    } else {
      InnerLine(lines[1..], k - 1);
      var front, back :| rest == front + "\n" + lines[k] + "\n" + back;
      assert text == (lines[0] + "\n" + front) + "\n" + lines[k] + "\n" + back;
    }
  }

  /** Where the parts of the notes begin. */
  lemma NoteParts(repo: string, plan: Plan, stable: string, notes: Notes)
    ensures var lines := NoteLines(repo, plan, stable, notes); var base := "https://github.com/" + repo;
      var moved := OrNone(Bullets(plan.lines, "`", "`")); var at := 8 + |moved| + 2;
      && |lines| >= at + |notes.prs| + 4 && lines[8..8 + |moved|] == moved
      && lines[at..at + |notes.prs|] == PrLines(notes.prs, base)
      && lines[0] == "Polis " + plan.version && lines[2] == "Previous: " + PreviousOf(plan)
      && lines[3] == "Commit: " + stable && lines[5] == SchemaLine(plan)
      && (notes.direct != [] ==>
            && |lines| >= at + |notes.prs| + 2 + |notes.direct| + 4
            && lines[at + |notes.prs| + 2..at + |notes.prs| + 2 + |notes.direct|] == CommitLines(notes.direct, base))
  {
    var base := "https://github.com/" + repo;
    var moved := OrNone(Bullets(plan.lines, "`", "`"));
    hide PrLines, CommitLines, Bullets, OrNone, SchemaLine;
    var head := ["Polis " + plan.version, "", "Previous: " + PreviousOf(plan), "Commit: " + stable,
                 "Promotion: " + base + "/pull/" + Text.Dec(notes.promotion), SchemaLine(plan), "", "Migrations:"];
    var lines := NoteLines(repo, plan, stable, notes);
    assert lines[..8] == head;
  }

  /** The notes say whether the release migrates the schema, and list every migration. */
  lemma NotesListMigrations(repo: string, plan: Plan, stable: string, notes: Notes, k: nat)
    ensures HasLine(RenderNotes(repo, plan, stable, notes), if plan.lines == [] then "schema: no" else "schema: yes")
    ensures k < |plan.lines| ==> HasLine(RenderNotes(repo, plan, stable, notes), "- `" + plan.lines[k] + "`")
  {
    NoteParts(repo, plan, stable, notes);
    var lines := NoteLines(repo, plan, stable, notes);
    hide NoteLines;
    InnerLine(lines, 5);
    if k < |plan.lines| {
      var moved := OrNone(Bullets(plan.lines, "`", "`"));
      assert lines[8 + k] == lines[8..8 + |moved|][k] == "- " + "`" + plan.lines[k] + "`";
      InnerLine(lines, 8 + k);
      assert "- " + "`" + plan.lines[k] + "`" == "- `" + plan.lines[k] + "`";
    }
  }

  /** They list every pull request, its title escaped, with a link to it. */
  lemma NotesListPulls(repo: string, plan: Plan, stable: string, notes: Notes, k: nat)
    requires k < |notes.prs|
    ensures HasLine(RenderNotes(repo, plan, stable, notes),
                    PullLine(PlanMarkers.Markdown(notes.prs[k].title), Text.Dec(notes.prs[k].number), repo))
  {
    NoteParts(repo, plan, stable, notes);
    var lines := NoteLines(repo, plan, stable, notes);
    hide NoteLines, PlanMarkers.Markdown, Text.Dec;
    var at := 8 + |OrNone(Bullets(plan.lines, "`", "`"))| + 2;
    assert lines[at + k] == lines[at..at + |notes.prs|][k];
    InnerLine(lines, at + k);
    SamePullLine(PlanMarkers.Markdown(notes.prs[k].title), Text.Dec(notes.prs[k].number), repo);
  }

  function PullLine(title: string, number: string, repo: string): string {
    "- " + title + " ([PR #" + number + "](https://github.com/" + repo + "/pull/" + number + "))"
  }

  lemma SamePullLine(title: string, number: string, repo: string)
    ensures "- " + title + " ([PR #" + number + "](" + ("https://github.com/" + repo) + "/pull/" + number + "))"
         == PullLine(title, number, repo)
  {
    assert "](" + "https://github.com/" == "](https://github.com/";
  }

  /** And every commit without one, with its first twelve digits and a link to it. */
  lemma NotesListCommits(repo: string, plan: Plan, stable: string, notes: Notes, k: nat)
    requires k < |notes.direct|
    ensures var c := notes.direct[k].commit;
      HasLine(RenderNotes(repo, plan, stable, notes),
              CommitLine(PlanMarkers.Markdown(notes.direct[k].title), c, if |c| > 12 then c[..12] else c, repo))
  {
    NoteParts(repo, plan, stable, notes);
    var lines := NoteLines(repo, plan, stable, notes);
    hide NoteLines, PlanMarkers.Markdown;
    var at := 8 + |OrNone(Bullets(plan.lines, "`", "`"))| + 2 + |notes.prs| + 2;
    assert lines[at + k] == lines[at..at + |notes.direct|][k];
    InnerLine(lines, at + k);
    var c := notes.direct[k].commit;
    SameCommitLine(PlanMarkers.Markdown(notes.direct[k].title), c, Short(c), repo);
  }

  function CommitLine(title: string, commit: string, short: string, repo: string): string {
    "- " + title + " ([" + short + "](https://github.com/" + repo + "/commit/" + commit + "))"
  }

  lemma SameCommitLine(title: string, commit: string, short: string, repo: string)
    ensures "- " + title + " ([" + short + "](" + ("https://github.com/" + repo) + "/commit/" + commit + "))"
         == CommitLine(title, commit, short, repo)
  {
    assert "](" + "https://github.com/" == "](https://github.com/";
  }
}
