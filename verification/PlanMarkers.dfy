/** Splicing the release plan into a pull-request body: scripts/polis_release.py, `markdown`,
    `plan_section`, `replace_section`. */
module PlanMarkers {
  import opened ReleasePlan
  import opened Wrappers
  import Text

  const BEGIN := "<!-- polis-release-plan -->"
  const END := "<!-- /polis-release-plan -->"

  predicate IsMarker(m: string) {
    m == BEGIN || m == END
  }

  // ----- Occurrences

  ghost predicate At(s: string, m: string, p: int) {
    0 <= p && p + |m| <= |s| && forall k :: 0 <= k < |m| ==> s[p + k] == m[k]
  }

  lemma AtSlice(s: string, m: string, p: nat)
    requires p + |m| <= |s|
    ensures At(s, m, p) <==> s[p..p + |m|] == m
  {}

  lemma AtChar(s: string, m: string, p: int, k: nat)
    requires At(s, m, p) && k < |m|
    ensures s[p + k] == m[k]
  {}

  /** Occurrences do not depend on what precedes or follows. */
  lemma AtShift(s: string, m: string, from: nat, to: nat, p: int)
    requires from <= to <= |s|
    ensures At(s[from..to], m, p - from) <==> At(s, m, p) && from <= p && p + |m| <= to
  {}

  ghost predicate Free(s: string, m: string) {
    forall p :: !At(s, m, p)
  }

  ghost predicate Once(s: string, m: string, p: int) {
    At(s, m, p) && forall q :: At(s, m, q) ==> q == p
  }

  ghost predicate MarkerFree(s: string) {
    Free(s, BEGIN) && Free(s, END)
  }

  // ----- Python's string operations

  predicate StartsWith(s: string, m: string) {
    |m| <= |s| && s[..|m|] == m
  }

  /** `s.index(m)`, the first occurrence; None where Python raises. */
  function Index(s: string, m: string): (r: Option<nat>)
    ensures r.Some? ==> At(s, m, r.value) && forall q :: At(s, m, q) ==> r.value <= q
    ensures r.None? ==> Free(s, m)
  {
    if StartsWith(s, m) then AtSlice(s, m, 0); Some(0)
    else if s == [] then None
    else
      AfterOther(s, m);
      match Index(s[1..], m)
      case None => None
      case Some(i) => Some(i + 1)
  }

  lemma AfterOther(s: string, m: string)
    requires s != [] && !StartsWith(s, m)
    ensures forall q :: At(s, m, q) <==> At(s[1..], m, q - 1)
  {}

  /** `s.count(m)`: occurrences taken from the left, without overlap. */
  function Count(s: string, m: string): nat
    requires m != []
  {
    if |s| < |m| then 0
    else if StartsWith(s, m) then 1 + Count(s[|m|..], m)
    else Count(s[1..], m)
  }

  predicate IsSpace(c: char) {
    || 9 <= c as int <= 13 || 28 <= c as int <= 32 || c as int in {0x85, 0xA0, 0x1680}
    || 0x2000 <= c as int <= 0x200A || c as int in {0x2028, 0x2029, 0x202F, 0x205F, 0x3000}
  }

  /** `s.rstrip()`. */
  function RStrip(s: string): (r: string)
    ensures r <= s && (r != [] ==> !IsSpace(r[|r| - 1]))
    ensures forall i :: |r| <= i < |s| ==> IsSpace(s[i])
  {
    if s != [] && IsSpace(s[|s| - 1]) then RStrip(s[..|s| - 1]) else s
  }

  // ----- Markers do not overlap

  lemma MarkerShape(m: string)
    requires IsMarker(m)
    ensures 27 <= |m| <= 28 && m[0] == '<' && forall j :: 0 < j < |m| ==> m[j] != '<'
    ensures BEGIN[5] != END[5]
  {}

  lemma AtAngle(s: string, m: string, p: int)
    requires IsMarker(m) && At(s, m, p)
    ensures s[p] == '<' && forall q :: p < q < p + |m| ==> s[q] != '<'
  {
    MarkerShape(m);
    AtChar(s, m, p, 0);
    forall q | p < q < p + |m| ensures s[q] != '<' { AtChar(s, m, p, q - p); }
  }

  /** '<' occurs in a marker only at its start, so two occurrences of markers never overlap. */
  lemma NoOverlap(s: string, m: string, p: int, m': string, q: int)
    requires IsMarker(m) && IsMarker(m') && At(s, m, p) && At(s, m', q)
    ensures (p == q && m == m') || p + |m| <= q || q + |m'| <= p
  {
    AtAngle(s, m, p);
    AtAngle(s, m', q);
    MarkerShape(m);
    if p == q { AtChar(s, m, p, 5); AtChar(s, m', q, 5); }
  }

  /** Counting without overlap counts every occurrence of a marker. */
  lemma {:induction false} CountMeaning(s: string, m: string)
    requires IsMarker(m)
    ensures Count(s, m) == 0 <==> Free(s, m)
    ensures Count(s, m) == 1 <==> exists p :: Once(s, m, p)
    decreases |s|
  {
    MarkerShape(m);
    if |s| >= |m| {
      if StartsWith(s, m) {
        CountMeaning(s[|m|..], m);
        AfterMarker(s, m);
        if Free(s[|m|..], m) { assert Once(s, m, 0); }
        if !Free(s[|m|..], m) {
          var q :| At(s[|m|..], m, q);
          assert At(s, m, 0) && At(s, m, q + |m|);
        }
      } else {
        CountMeaning(s[1..], m);
        AfterOther(s, m);
        if exists p :: Once(s, m, p) {
          var p :| Once(s, m, p);
          assert Once(s[1..], m, p - 1) by {
            forall q | At(s[1..], m, q) ensures q == p - 1 { assert At(s, m, q + 1); }
          }
        }
        if exists p :: Once(s[1..], m, p) {
          var p :| Once(s[1..], m, p);
          assert Once(s, m, p + 1);
        }
        if !Free(s[1..], m) {
          var p :| At(s[1..], m, p);
          assert At(s, m, p + 1);
        }
      }
    }
  }

  lemma AfterMarker(s: string, m: string)
    requires IsMarker(m) && StartsWith(s, m)
    ensures forall q :: At(s, m, q) <==> q == 0 || At(s[|m|..], m, q - |m|)
  {
    AtSlice(s, m, 0);
    forall q ensures At(s, m, q) <==> q == 0 || At(s[|m|..], m, q - |m|) {
      AtShift(s, m, |m|, |s|, q);
      if At(s, m, q) { NoOverlap(s, m, 0, m, q); }
    }
  }

  // ----- replace_section

  /** Exactly one begin marker, before exactly one end marker. */
  ghost predicate OnePair(s: string, i: int, j: int) {
    Once(s, BEGIN, i) && Once(s, END, j) && i < j
  }

  ghost predicate Spliceable(body: string) {
    MarkerFree(body) || exists i, j :: OnePair(body, i, j)
  }

  lemma MarkerCounts(body: string)
    ensures Index(body, BEGIN).None? && Index(body, END).None? <==> MarkerFree(body)
    ensures Count(body, BEGIN) == 1 ==> Index(body, BEGIN).Some? && Once(body, BEGIN, Index(body, BEGIN).value)
    ensures Count(body, END) == 1 ==> Index(body, END).Some? && Once(body, END, Index(body, END).value)
  {
    CountMeaning(body, BEGIN);
    CountMeaning(body, END);
  }

  function ReplaceSection(body: string, section: string): Result<string, string> {
    if Index(body, BEGIN).None? && Index(body, END).None? then Ok(RStrip(body) + "\n\n" + section + "\n")
    else if Count(body, BEGIN) != 1 || Count(body, END) != 1 then Err("Ambiguous release-plan markers in PR body")
    else
      MarkerCounts(body);
      var i, j := Index(body, BEGIN).value, Index(body, END).value;
      if i > j then Err("Ambiguous release-plan markers in PR body")
      else Ok(body[..i] + section + body[j + |END|..])
  }

  /** A section starts with the begin marker, ends with the end marker, and holds no other. */
  ghost predicate WellFormed(section: string) {
    Once(section, BEGIN, 0) && Once(section, END, |section| - |END|)
  }

  lemma OnceIsIndexed(body: string, m: string, p: int)
    requires IsMarker(m) && Once(body, m, p)
    ensures Count(body, m) == 1 && Index(body, m) == Some(p) && p + |m| <= |body|
  {
    CountMeaning(body, m);
    assert At(body, m, p);
  }

  lemma ReplaceMarked(body: string, i: int, j: int, section: string)
    requires OnePair(body, i, j)
    ensures j + |END| <= |body| && !MarkerFree(body)
    ensures ReplaceSection(body, section) == Ok(body[..i] + section + body[j + |END|..])
  {
    hide At, Once, Count, Free;
    OnceIsIndexed(body, BEGIN, i);
    OnceIsIndexed(body, END, j);
    OnceIsThere(body, BEGIN, i);
  }

  lemma OnceIsThere(s: string, m: string, p: int)
    requires Once(s, m, p)
    ensures !Free(s, m)
  {}

  /** Splicing is refused exactly when the markers are neither absent nor one ordered pair. */
  lemma ReplaceAccepts(body: string, section: string)
    ensures ReplaceSection(body, section).Ok? <==> Spliceable(body)
  {
    MarkerCounts(body);
    if exists i, j :: OnePair(body, i, j) {
      var i, j :| OnePair(body, i, j);
      ReplaceMarked(body, i, j, section);
    }
    if ReplaceSection(body, section).Ok? && !MarkerFree(body) {
      var i, j := Index(body, BEGIN).value, Index(body, END).value;
      NoOverlap(body, BEGIN, i, END, j);
      assert OnePair(body, i, j);
    }
  }

  /** What stands before and after the spliced section: everything outside the old markers, or
      the whole body up to its trailing white space. */
  ghost function Outside(body: string): (string, string)
    requires Spliceable(body)
  {
    if MarkerFree(body) then (RStrip(body) + "\n\n", "\n")
    else
      var (i, j) := Pair(body);
      (body[..i], body[j + |END|..])
  }

  ghost function Pair(body: string): (r: (int, int))
    requires Spliceable(body) && !MarkerFree(body)
    ensures OnePair(body, r.0, r.1)
  {
    var i, j :| OnePair(body, i, j);
    (i, j)
  }

  lemma OutsideMarked(body: string, i: int, j: int)
    requires OnePair(body, i, j)
    ensures Outside(body) == (body[..i], body[j + |END|..])
  {}

  lemma ReplaceIs(body: string, section: string)
    requires Spliceable(body)
    ensures var (front, back) := Outside(body); ReplaceSection(body, section) == Ok(front + section + back)
  {
    if MarkerFree(body) {
      MarkerCounts(body);
      assert RStrip(body) + "\n\n" + section + "\n" == (RStrip(body) + "\n\n") + section + "\n";
    } else {
      var i, j :| OnePair(body, i, j);
      OutsideMarked(body, i, j);
      ReplaceMarked(body, i, j, section);
    }
  }

  lemma OutsideFree(body: string)
    requires Spliceable(body)
    ensures var (front, back) := Outside(body); MarkerFree(front) && MarkerFree(back)
  {
    if MarkerFree(body) {
      StrippedFree(body);
    } else {
      var i, j :| OnePair(body, i, j);
      OutsideMarked(body, i, j);
      FrontFree(body, i, j, BEGIN);
      FrontFree(body, i, j, END);
      BackFree(body, i, j, BEGIN);
      BackFree(body, i, j, END);
    }
  }

  lemma FrontFree(body: string, i: int, j: int, m: string)
    requires OnePair(body, i, j) && IsMarker(m)
    ensures Free(body[..i], m)
  {
    MarkerShape(m);
    assert body[..i] == body[0..i];
    forall p ensures !At(body[..i], m, p) { AtShift(body, m, 0, i, p); }
  }

  lemma BackFree(body: string, i: int, j: int, m: string)
    requires OnePair(body, i, j) && IsMarker(m)
    ensures Free(body[j + |END|..], m)
  {
    MarkerShape(m);
    var from := j + |END|;
    var back := body[from..];
    assert back == body[from..|body|];
    forall p ensures !At(back, m, p) { AtShift(body, m, from, |body|, p + from); }
  }

  lemma StrippedFree(body: string)
    requires MarkerFree(body)
    ensures MarkerFree(RStrip(body) + "\n\n") && MarkerFree("\n")
  {
    var kept := RStrip(body);
    var s := kept + "\n\n";
    forall m, p | IsMarker(m) ensures !At(s, m, p) {
      MarkerShape(m);
      if At(s, m, p) {
        AtChar(s, m, p, |m| - 1);
        NoBreak(m, |m| - 1);
        NoBreak(m, |m| - 2);
        AtChar(s, m, p, |m| - 2);
        assert p + |m| <= |kept|;
        forall k | 0 <= k < |m| ensures body[p + k] == m[k] { assert s[p + k] == body[p + k]; }
        assert At(body, m, p);
      }
    }
    forall m, p | IsMarker(m) ensures !At("\n", m, p) { MarkerShape(m); }
  }

  /** Neither marker holds a line break, a backslash, or one of the characters around the fields. */
  lemma NoBreak(m: string, k: nat)
    requires IsMarker(m) && k < |m|
    ensures m[k] !in {'\n', '\\', '*', '`'}
  {}

  lemma SpliceKeeps(front: string, section: string, back: string)
    requires WellFormed(section)
    ensures At(front + section + back, BEGIN, |front|)
    ensures At(front + section + back, END, |front| + |section| - |END|)
  {}

  /** Around a well-formed section no marker appears that was not there: none straddles the seams. */
  lemma SpliceInside(front: string, section: string, back: string, m: string, q: int)
    requires MarkerFree(front) && MarkerFree(back) && WellFormed(section)
    requires IsMarker(m) && At(front + section + back, m, q)
    ensures At(section, m, q - |front|)
  {
    var s := front + section + back;
    var at, to := |front|, |front| + |section|;
    SpliceKeeps(front, section, back);
    NoOverlap(s, m, q, BEGIN, at);
    NoOverlap(s, m, q, END, to - |END|);
    MarkerShape(m);
    assert s[at..to] == section && s[0..at] == front && s[to..|s|] == back;
    AtShift(s, m, 0, at, q);
    AtShift(s, m, at, to, q);
    AtShift(s, m, to, |s|, q);
  }

  lemma SpliceOnce(front: string, section: string, back: string)
    requires MarkerFree(front) && MarkerFree(back) && WellFormed(section)
    ensures OnePair(front + section + back, |front|, |front| + |section| - |END|)
  {
    var s := front + section + back;
    SpliceKeeps(front, section, back);
    forall q | At(s, BEGIN, q) ensures q == |front| { SpliceInside(front, section, back, BEGIN, q); }
    forall q | At(s, END, q) ensures q == |front| + |section| - |END| { SpliceInside(front, section, back, END, q); }
    NoOverlap(s, BEGIN, |front|, END, |front| + |section| - |END|);
    AtChar(section, END, |section| - |END|, 0);
  }

  /** After a splice there is exactly one marker pair, around exactly the new section, and the
      text outside the old pair is as it was. */
  lemma ReplaceLeavesOnePair(body: string, section: string)
    requires WellFormed(section) && Spliceable(body)
    ensures var (front, back) := Outside(body);
      && ReplaceSection(body, section) == Ok(front + section + back)
      && OnePair(front + section + back, |front|, |front| + |section| - |END|)
  {
    ReplaceIs(body, section);
    OutsideFree(body);
    SpliceOnce(Outside(body).0, section, Outside(body).1);
  }

  /** What a splice into a marked body removes is one text from its begin to its end marker. */
  lemma OutsideIsAllButThePair(body: string) returns (plan: string)
    requires Spliceable(body) && !MarkerFree(body)
    ensures body == Outside(body).0 + plan + Outside(body).1
    ensures StartsWith(plan, BEGIN) && At(plan, END, |plan| - |END|)
  {
    var (i, j) := Pair(body);
    plan := PairText(body, i, j);
  }

  lemma PairText(body: string, i: int, j: int) returns (plan: string)
    requires OnePair(body, i, j)
    ensures i <= j + |END| <= |body| && plan == body[i..j + |END|]
    ensures StartsWith(plan, BEGIN) && At(plan, END, |plan| - |END|)
  {
    NoOverlap(body, BEGIN, i, END, j);
    plan := body[i..j + |END|];
    AtShift(body, BEGIN, i, j + |END|, i);
    AtSlice(plan, BEGIN, 0);
    AtShift(body, END, i, j + |END|, j);
  }

  /** A later plan replaces an earlier one completely: refreshing twice is refreshing once. */
  lemma ReplaceReplaces(body: string, first: string, second: string)
    requires WellFormed(first) && WellFormed(second) && Spliceable(body)
    ensures ReplaceSection(body, first).Ok?
    ensures ReplaceSection(ReplaceSection(body, first).value, second) == ReplaceSection(body, second)
  {
    hide WellFormed, Spliceable, OnePair, ReplaceSection, Outside;
    var (front, back) := Outside(body);
    ReplaceLeavesOnePair(body, first);
    ReplaceIs(body, second);
    var s := front + first + back;
    ReplaceMarked(s, |front|, |front| + |first| - |END|, second);
    assert s[..|front|] == front && s[|front| + |first|..] == back;
  }

  // ----- markdown

  /** `s.split()`: the words between runs of white space. */
  function Words(s: string, word: string): seq<string> {
    if s == [] then if word == [] then [] else [word]
    else if !IsSpace(s[0]) then Words(s[1..], word + [s[0]])
    else (if word == [] then [] else [word]) + Words(s[1..], [])
  }

  predicate Special(c: char) {
    c in {'\\', '`', '*', '_', '{', '}', '[', ']', '(', ')', '<', '>', '#', '!', '|'}
  }

  /** A backslash in front of every special character. */
  function Escape(s: string): string {
    if s == [] then [] else (if Special(s[0]) then ['\\', s[0]] else [s[0]]) + Escape(s[1..])
  }

  function Markdown(value: string): string {
    Escape(Text.Join(Words(value, []), " "))
  }

  /** A text without white space is one word. */
  lemma {:induction false} OneWord(s: string, word: string)
    requires word + s != "" && forall c :: c in s ==> !IsSpace(c)
    ensures Words(s, word) == [word + s]
  {
    if s == "" {
      assert word + s == word;
    } else {
      assert s[0] in s && word + [s[0]] + s[1..] == word + s;
      forall c | c in s[1..] ensures !IsSpace(c) {}
      OneWord(s[1..], word + [s[0]]);
    }
  }

  /** White space ends a word, and otherwise does not count: together with the lemma before this settles
      what the words of a text are. */
  lemma {:induction false} WordsSplit(a: string, c: char, b: string, word: string)
    requires IsSpace(c)
    ensures Words(a + [c] + b, word) == Words(a, word) + Words(b, "") && Words("", "") == []
  {
    var s := a + [c] + b;
    if a == "" {
      assert s[0] == c && s[1..] == b;
    } else {
      assert s[0] == a[0] && s[1..] == a[1..] + [c] + b;
      WordsSplit(a[1..], c, b, if IsSpace(a[0]) then "" else word + [a[0]]);
    }
  }

  /** What a reader of Markdown makes of escaped text. */
  function Unescape(s: string): string {
    if s == "" then ""
    else if s[0] == '\\' && |s| > 1 then [s[1]] + Unescape(s[2..])
    else [s[0]] + Unescape(s[1..])
  }

  lemma {:induction false} EscapeReads(s: string)
    ensures Unescape(Escape(s)) == s
  {
    if s != "" {
      EscapeReads(s[1..]);
      var rest := Escape(s[1..]);
      if Special(s[0]) {
        assert ['\\', s[0]] + rest == ['\\'] + ([s[0]] + rest) && (['\\', s[0]] + rest)[2..] == rest;
      } else {
        assert ([s[0]] + rest)[1..] == rest;
      }
      assert s == [s[0]] + s[1..];
    }
  }

  /** Escaped text reads as the words of the value, one space apart. */
  lemma MarkdownReads(value: string)
    ensures Unescape(Markdown(value)) == Text.Join(Words(value, ""), " ")
  {
    EscapeReads(Text.Join(Words(value, ""), " "));
  }

  lemma {:induction false} EscapePrecedes(s: string, q: nat)
    requires q < |Escape(s)| && Escape(s)[q] == '!'
    ensures q > 0 && Escape(s)[q - 1] == '\\'
  {
    var head := if Special(s[0]) then ['\\', s[0]] else [s[0]];
    if q >= |head| { EscapePrecedes(s[1..], q - |head|); }
  }

  /** Escaped text never holds a marker, whatever it was: a marker's '!' has no backslash before it. */
  lemma MarkdownMarkerFree(value: string)
    ensures MarkerFree(Markdown(value))
  {
    var s := Markdown(value);
    forall m, p | IsMarker(m) ensures !At(s, m, p) {
      if At(s, m, p) {
        AtChar(s, m, p, 0);
        AtChar(s, m, p, 1);
        EscapePrecedes(Text.Join(Words(value, []), " "), p + 1);
      }
    }
  }

  // ----- plan_section

  /** `'\n'.join('- `' + name + '`' for name in lines)`. */
  function Migrations(lines: seq<string>): string {
    if lines == [] then []
    else if |lines| == 1 then "- `" + lines[0] + "`"
    else "- `" + lines[0] + "`\n" + Migrations(lines[1..])
  }

  const VERSION := "\n### Release plan\n\nVersion: **"
  const REASON := "**\n\nReason: "
  const PREVIOUS := "\n\nPrevious stable: `"
  const CANDIDATE := "`\n\nCandidate: `"
  const ADDITIONS := "`\n\nrelease.txt additions:\n"
  const CLOSING_1 := "\n\nMerge the reviewed version "
  const CLOSING_2 := "preparation into edge, then "
  const CLOSING_3 := "refresh this plan for the "
  const CLOSING_4 := "resulting edge SHA before merging "
  const CLOSING_5 := "the promotion with a merge commit.\n"
  const CLOSING := CLOSING_1 + CLOSING_2 + CLOSING_3 + CLOSING_4 + CLOSING_5

  function PlanText(plan: Plan): string {
    var migrations := if plan.lines == [] then "- none" else Migrations(plan.lines);
    VERSION + plan.version + REASON + Markdown(plan.reason) + PREVIOUS + plan.previous
    + CANDIDATE + plan.candidate + ADDITIONS + migrations + CLOSING
  }

  function PlanSection(plan: Plan): string {
    BEGIN + PlanText(plan) + END
  }

  /** Text that no marker can run into or start in. */
  predicate Fence(s: string) {
    s != [] && s[0] in {'\n', '\\', '*', '`'} && '<' !in s
  }

  lemma NoStart(a: string, b: string, m: string)
    requires IsMarker(m) && '<' !in a
    ensures Free(a + b, m) <==> Free(b, m)
  {
    var s := a + b;
    assert s[|a|..|s|] == b;
    forall p ensures At(b, m, p) <==> At(s, m, p + |a|) && 0 <= p { AtShift(s, m, |a|, |s|, p + |a|); }
    forall p | At(s, m, p) ensures At(b, m, p - |a|) {
      assert p < |a| ==> s[p] in a;
      AtChar(s, m, p, 0);
      assert At(s, m, (p - |a|) + |a|);
    }
  }

  lemma FreeAround(a: string, fence: string, b: string, m: string)
    requires IsMarker(m) && Fence(fence)
    ensures Free(a + fence + b, m) <==> Free(a, m) && Free(b, m)
  {
    var s := a + fence + b;
    assert s[0..|a|] == a && s[|a|..|s|] == fence + b;
    NoStart(fence, b, m);
    forall p ensures At(s, m, p) <==> At(a, m, p) || At(fence + b, m, p - |a|) {
      AtShift(s, m, 0, |a|, p);
      AtShift(s, m, |a|, |s|, p);
      if p < |a| < p + |m| && At(s, m, p) {
        NoBreak(m, |a| - p);
        AtChar(s, m, p, |a| - p);
      }
    }
    forall p ensures At(fence + b, m, p) <==> At(fence + b, m, (p + |a|) - |a|) {}
    if p :| At(fence + b, m, p) { assert At(s, m, p + |a|); }
  }

  lemma FencedFields(front: string, fence: string, field: string)
    requires Fence(fence)
    ensures MarkerFree(front + fence + field) <==> MarkerFree(front) && MarkerFree(field)
  {
    FreeAround(front, fence, field, BEGIN);
    FreeAround(front, fence, field, END);
  }

  lemma PlainFront(front: string, field: string)
    requires '<' !in front
    ensures MarkerFree(front + field) <==> MarkerFree(field)
  {
    NoStart(front, field, BEGIN);
    NoStart(front, field, END);
  }

  lemma ShortFree(s: string)
    requires |s| < 27
    ensures MarkerFree(s)
  {}

  ghost predicate NamesFree(lines: seq<string>) {
    forall name :: name in lines ==> MarkerFree(name)
  }

  lemma {:induction false} MigrationsFree(lines: seq<string>)
    ensures MarkerFree(Migrations(lines)) <==> NamesFree(lines)
  {
    ShortFree("");
    if lines != [] {
      PlainFront("- `", lines[0]);
      var first := "- `" + lines[0];
      assert lines == [lines[0]] + lines[1..];
      if |lines| == 1 {
        FencedFields(first, "`", "");
        assert first + "`" + "" == Migrations(lines);
      } else {
        MigrationsFree(lines[1..]);
        FencedFields(first, "`\n", Migrations(lines[1..]));
      }
    }
  }

  ghost predicate FieldsFree(plan: Plan) {
    MarkerFree(plan.version) && MarkerFree(plan.previous) && MarkerFree(plan.candidate) && NamesFree(plan.lines)
  }

  lemma Fences()
    ensures '<' !in VERSION && Fence(REASON) && Fence(PREVIOUS) && Fence(CANDIDATE) && Fence(ADDITIONS)
  {}

  lemma ClosingFence()
    ensures Fence(CLOSING)
  {
    ClosingStart();
    ClosingEnd();
    assert CLOSING[0] == CLOSING_1[0];
  }

  lemma ClosingStart()
    ensures '<' !in CLOSING_1 && '<' !in CLOSING_2
  {}

  lemma ClosingEnd()
    ensures '<' !in CLOSING_3 && '<' !in CLOSING_4 && '<' !in CLOSING_5
  {}

  lemma PlanTextFree(plan: Plan)
    ensures MarkerFree(PlanText(plan)) <==> FieldsFree(plan)
  {
    var migrations := if plan.lines == [] then "- none" else Migrations(plan.lines);
    var reason := Markdown(plan.reason);
    var t1 := VERSION + plan.version;
    var t2 := t1 + REASON + reason;
    var t3 := t2 + PREVIOUS + plan.previous;
    var t4 := t3 + CANDIDATE + plan.candidate;
    var t5 := t4 + ADDITIONS + migrations;
    Fences();
    ClosingFence();
    ShortFree("");
    ShortFree("- none");
    MigrationsFree(plan.lines);
    MarkdownMarkerFree(plan.reason);
    PlainFront(VERSION, plan.version);
    FencedFields(t1, REASON, reason);
    FencedFields(t2, PREVIOUS, plan.previous);
    FencedFields(t3, CANDIDATE, plan.candidate);
    FencedFields(t4, ADDITIONS, migrations);
    FencedFields(t5, CLOSING, "");
    assert t5 + CLOSING + "" == t5 + CLOSING;
  }

  lemma WrappedWellFormed(text: string)
    ensures WellFormed(BEGIN + text + END) <==> MarkerFree(text)
  {
    var s := BEGIN + text + END;
    var from, to := |BEGIN|, |s| - |END|;
    assert s[from..to] == text;
    AtSlice(s, BEGIN, 0);
    AtSlice(s, END, to);
    forall m, q | IsMarker(m) ensures At(text, m, q) <==> At(s, m, q + from) && q >= 0 && q + from + |m| <= to {
      AtShift(s, m, from, to, q + from);
    }
    forall m, q | IsMarker(m) && At(s, m, q) && (q, m) != (0, BEGIN) && (q, m) != (to, END)
      ensures At(text, m, q - from)
    {
      NoOverlap(s, BEGIN, 0, m, q);
      NoOverlap(s, END, to, m, q);
      MarkerShape(m);
      assert At(s, m, (q - from) + from);
    }
    if exists m, q :: IsMarker(m) && At(text, m, q) {
      var m, q :| IsMarker(m) && At(text, m, q);
      assert At(s, m, q + from) && q + from != 0 && q + from != to;
    }
    assert MarkerFree(text) <==> forall m, q :: IsMarker(m) ==> !At(text, m, q);
  }

  /** The section `plan_section` builds can be spliced and refreshed exactly when no field it copies
      unescaped holds a marker; the reason, which it escapes, may be any text. */
  lemma PlanSectionWellFormed(plan: Plan)
    ensures WellFormed(PlanSection(plan)) <==> FieldsFree(plan)
  {
    PlanTextFree(plan);
    WrappedWellFormed(PlanText(plan));
  }

  lemma SecondMarker(front: string, section: string, back: string, m: string, p: int, q: int)
    requires IsMarker(m) && At(section, m, p) && At(section, m, q) && p != q
    ensures !Spliceable(front + section + back)
  {
    hide At;
    var s := front + section + back;
    var from, to := |front|, |front| + |section|;
    assert s[from..to] == section;
    AtShift(s, m, from, to, p + from);
    AtShift(s, m, from, to, q + from);
    assert At(s, m, p + from) && At(s, m, q + from);
  }

  /** A section that is not well formed repeats a marker. */
  lemma RepeatedMarker(text: string) returns (m: string, p: int, q: int)
    requires !WellFormed(BEGIN + text + END)
    ensures IsMarker(m) && At(BEGIN + text + END, m, p) && At(BEGIN + text + END, m, q) && p != q
  {
    var s := BEGIN + text + END;
    AtSlice(s, BEGIN, 0);
    AtSlice(s, END, |s| - |END|);
    hide At;
    if !Once(s, BEGIN, 0) {
      var other :| At(s, BEGIN, other) && other != 0;
      m, p, q := BEGIN, 0, other;
    } else {
      var other :| At(s, END, other) && other != |s| - |END|;
      m, p, q := END, |s| - |END|, other;
    }
  }

  /** A body that received a plan can be refreshed later exactly when no field of that plan, copied
      unescaped, holds a marker. */
  lemma RefreshableExactly(body: string, plan: Plan)
    requires Spliceable(body)
    ensures ReplaceSection(body, PlanSection(plan)).Ok?
    ensures Spliceable(ReplaceSection(body, PlanSection(plan)).value) <==> FieldsFree(plan)
  {
    hide WellFormed, FieldsFree, ReplaceSection, Outside, PlanText, At, IsMarker, Once;
    var section := PlanSection(plan);
    var (front, back) := Outside(body);
    ReplaceIs(body, section);
    PlanSectionWellFormed(plan);
    if FieldsFree(plan) {
      ReplaceLeavesOnePair(body, section);
    } else {
      var m, p, q := RepeatedMarker(PlanText(plan));
      SecondMarker(front, section, back, m, p, q);
    }
  }

  // ----- The plans that are made

  lemma NoAngleFree(s: string)
    requires '<' !in s
    ensures MarkerFree(s)
  {
    PlainFront(s, "");
    ShortFree("");
    assert s + "" == s;
  }

  /** Without a '<' in an unescaped field a body that received the plan can always be refreshed. */
  lemma AngleFreePlansRefresh(body: string, plan: Plan)
    requires Spliceable(body) && '<' !in plan.version && '<' !in plan.previous && '<' !in plan.candidate
    requires forall name :: name in plan.lines ==> '<' !in name
    ensures var once := ReplaceSection(body, PlanSection(plan)); once.Ok? && Spliceable(once.value)
  {
    RefreshableExactly(body, plan);
    NoAngleFree(plan.version);
    NoAngleFree(plan.previous);
    NoAngleFree(plan.candidate);
    hide MarkerFree, Spliceable, ReplaceSection, PlanSection;
    forall name | name in plan.lines ensures MarkerFree(name) { NoAngleFree(name); }
  }

  lemma CommitFree(s: string)
    requires IsCommit(s)
    ensures MarkerFree(s)
  {
    assert '<' !in s;
    NoAngleFree(s);
  }

  lemma VersionFree(s: string)
    requires IsVersion(s)
    ensures MarkerFree(s)
  {
    var p := Text.Split(s, '.');
    Text.JoinSplit(s, '.');
    assert p[1..][1..] == [p[2]] && Text.Join([p[2]], ".") == p[2];
    assert Text.Join(p[1..], ".") == p[1] + "." + p[2];
    assert s == p[0] + "." + (p[1] + "." + p[2]);
    NoAngleFree(s);
  }

  lemma MigrationFree(name: string)
    requires IsMigration(name)
    ensures MarkerFree(name)
  {
    var end, suffix := |name| - 4, ".sql";
    assert '<' !in suffix && name[end..] == suffix;
    forall i | 0 <= i < |name| ensures name[i] != '<' {
      if i < 6 {
        assert name[i] in name[..6];
        assert IsDigit(name[i]);
      } else if 7 <= i < end {
        assert name[i] in name[7..end];
        assert IsDigit(name[i]) || 'A' <= name[i];
      } else if end <= i {
        assert name[i] == suffix[i - end];
      }
    }
    NoAngleFree(name);
  }

  /** Of a plan that `compute` returns, with the canonical version that `mirror_changes` asks for, only
      the migration names decide whether a body that received it can be refreshed later; and the file
      names that the version tool takes for migrations always let it. */
  lemma MadePlansRefresh(body: string, plan: Plan, previous: string, source: string)
    requires Spliceable(body) && Computed(plan, previous, source) && IsVersion(plan.version)
    ensures ReplaceSection(body, PlanSection(plan)).Ok?
    ensures var after := ReplaceSection(body, PlanSection(plan)).value;
      && (Spliceable(after) <==> NamesFree(plan.lines))
      && ((forall name :: name in plan.lines ==> IsMigration(name)) ==> Spliceable(after))
  {
    RefreshableExactly(body, plan);
    VersionFree(plan.version);
    CommitFree(plan.previous);
    CommitFree(plan.candidate);
    hide MarkerFree, IsMigration, IsVersion, IsCommit, Spliceable, ReplaceSection, PlanSection;
    if forall name :: name in plan.lines ==> IsMigration(name) {
      forall name | name in plan.lines ensures MarkerFree(name) { MigrationFree(name); }
    }
  }

  const FIRST := "0.0.1"

  lemma FirstVersion()
    ensures IsVersion(FIRST)
  {
    var a, b, c := "0", "0", "1";
    Text.SplitJoin([a, b, c], '.');
    assert [a, b, c][1..][1..] == [c] && Text.Join([a, b, c], ".") == a + "." + (b + "." + c) == FIRST;
  }

  lemma EndMarker()
    ensures !MarkerFree(END) && !IsMigration(END)
  {
    AtSlice(END, END, 0);
    assert END[..6][0] == END[0] && END[0] in END[..6];
  }

  /** The script's own checks do not: a plan that passes them and names the end marker for a migration
      is spliced once, and then every refresh is refused. */
  lemma UnescapedMarkerBlocksRefresh(body: string, section: string, previous: string, source: string)
    returns (plan: Plan)
    requires Spliceable(body) && IsCommit(previous) && IsCommit(source)
    ensures Computed(plan, previous, source) && IsVersion(plan.version) && plan.lines == [END] && !IsMigration(END)
    ensures var once := ReplaceSection(body, PlanSection(plan)); once.Ok? && ReplaceSection(once.value, section).Err?
  {
    FirstVersion();
    EndMarker();
    hide IsVersion, IsMigration, IsCommit, MarkerFree, PlanSection, Spliceable, ReplaceSection;
    plan := Plan("polis.release-plan/1", "promotion", true, FIRST, "", "", previous, source, [END]);
    assert END in plan.lines;
    RefreshableExactly(body, plan);
    ReplaceAccepts(ReplaceSection(body, PlanSection(plan)).value, section);
  }
}
