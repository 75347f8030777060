/** The weekly and monthly report of the home page (src/app/page.tsx,
    reportData and generateReportMarkdown): the records since the start of
    the window, their counts and total time, and the Markdown text the page
    copies to the clipboard. */
module Report {
  import opened Strings
  import opened Types
  import opened Clock

  // ---------------------------------------------------------------- data

  datatype Scope = Weekly | Monthly

  /** One session of the report: its goal, its duration text and its
      locale day text. */
  datatype SessionLine = SessionLine(goal: string, duration: string, date: string)

  datatype ReportData = ReportData(
    sessionCount: nat,
    totalTime: int,
    ideaCount: nat,
    blockerCount: nat,
    openBlockers: nat,
    resolvedBlockers: nat,
    sessions: seq<SessionLine>)

  /** `t >= startIso`, compared as strings. */
  predicate InWindow(startIso: string, t: string) {
    LessEq(startIso, t)
  }

  /** For a window start and a record time that are both canonical ISO
      texts, the string comparison is the comparison of the instants. */
  lemma WindowByTime(startIso: Instant, t: Instant)
    ensures InWindow(startIso, t) <==> Millis(startIso) <= Millis(t)
  {
    MillisOrder(startIso, t);
  }

  /** The completed sessions that started in the window, in list order. */
  function WindowSessions(ss: seq<Session>, startIso: string): seq<Session> {
    if ss == [] then []
    else
      var s := ss[|ss| - 1];
      WindowSessions(ss[..|ss| - 1], startIso)
        + (if s.status == Completed && InWindow(startIso, s.startTime) then [s] else [])
  }

  /** The ideas created in the window. */
  function WindowIdeas(ideas: seq<Idea>, startIso: string): seq<Idea> {
    if ideas == [] then []
    else
      var i := ideas[|ideas| - 1];
      WindowIdeas(ideas[..|ideas| - 1], startIso) + (if InWindow(startIso, i.createdAt) then [i] else [])
  }

  /** The blockers created in the window. */
  function WindowBlockers(bs: seq<Blocker>, startIso: string): seq<Blocker> {
    if bs == [] then []
    else
      var b := bs[|bs| - 1];
      WindowBlockers(bs[..|bs| - 1], startIso) + (if InWindow(startIso, b.createdAt) then [b] else [])
  }

  /** The blockers with the given status. */
  function WithStatus(bs: seq<Blocker>, st: BlockerStatus): seq<Blocker> {
    if bs == [] then []
    else
      var b := bs[|bs| - 1];
      WithStatus(bs[..|bs| - 1], st) + (if b.status == st then [b] else [])
  }

  /** `reduce((sum, s) => sum + getSessionDuration(s), 0)`. */
  function TotalTime(ss: seq<Session>): int {
    if ss == [] then 0 else TotalTime(ss[..|ss| - 1]) + SessionDuration(ss[|ss| - 1])
  }

  /** The exact time the sessions took, in milliseconds; a session with no
      end takes none. */
  function TotalMillis(ss: seq<Session>): int {
    if ss == [] then 0
    else
      var s := ss[|ss| - 1];
      TotalMillis(ss[..|ss| - 1]) + (if s.endTime.None? then 0 else Millis(s.endTime.value) - Millis(s.startTime))
  }

  /** The report line of each session; `localeDate` is the page's
      `toLocaleDateString` for the session's start. */
  function SessionLines(ss: seq<Session>, localeDate: Instant -> string): seq<SessionLine> {
    if ss == [] then []
    else
      SessionLines(ss[..|ss| - 1], localeDate) + [LineOf(ss[|ss| - 1], localeDate)]
  }

  /** `{ goal, duration: formatDuration(getSessionDuration(s)), date }`. */
  function LineOf(s: Session, localeDate: Instant -> string): SessionLine {
    SessionLine(s.goal, FormatDuration(SessionDuration(s)), localeDate(s.startTime))
  }

  /** `reportData` for the window that starts at `startIso`. */
  function BuildReport(ss: seq<Session>, ideas: seq<Idea>, bs: seq<Blocker>, startIso: string,
                       localeDate: Instant -> string): ReportData {
    var sw := WindowSessions(ss, startIso);
    var bw := WindowBlockers(bs, startIso);
    ReportData(
      |sw|,
      TotalTime(sw),
      |WindowIdeas(ideas, startIso)|,
      |bw|,
      |WithStatus(bw, Open)|,
      |WithStatus(bw, Resolved)|,
      SessionLines(sw, localeDate))
  }

  // ---------------------------------------------------------------- the window

  /** The report's sessions are the completed sessions started in the
      window, each as often as in the list. */
  lemma {:induction false} WindowSessionsSpec(ss: seq<Session>, startIso: string)
    ensures forall s :: multiset(WindowSessions(ss, startIso))[s] == (if s.status == Completed && InWindow(startIso, s.startTime) then multiset(ss)[s] else 0)
    ensures forall s :: s in WindowSessions(ss, startIso) <==>
      s in ss && s.status == Completed && InWindow(startIso, s.startTime)
  {
    if ss != [] {
      var p := ss[..|ss| - 1];
      WindowSessionsSpec(p, startIso);
      assert ss == p + [ss[|ss| - 1]];
    }
  }

  lemma {:induction false} WindowIdeasSpec(ideas: seq<Idea>, startIso: string)
    ensures forall i :: multiset(WindowIdeas(ideas, startIso))[i] == (if InWindow(startIso, i.createdAt) then multiset(ideas)[i] else 0)
    ensures forall i :: i in WindowIdeas(ideas, startIso) <==> i in ideas && InWindow(startIso, i.createdAt)
  {
    if ideas != [] {
      var p := ideas[..|ideas| - 1];
      WindowIdeasSpec(p, startIso);
      assert ideas == p + [ideas[|ideas| - 1]];
    }
  }

  lemma {:induction false} WindowBlockersSpec(bs: seq<Blocker>, startIso: string)
    ensures forall b :: multiset(WindowBlockers(bs, startIso))[b] == (if InWindow(startIso, b.createdAt) then multiset(bs)[b] else 0)
    ensures forall b :: b in WindowBlockers(bs, startIso) <==> b in bs && InWindow(startIso, b.createdAt)
  {
    if bs != [] {
      var p := bs[..|bs| - 1];
      WindowBlockersSpec(p, startIso);
      assert bs == p + [bs[|bs| - 1]];
    }
  }

  /** A window that starts later holds no more sessions than one that starts
      earlier, and only sessions of it. */
  lemma {:induction false} WindowShrinks(ss: seq<Session>, early: string, late: string)
    requires LessEq(early, late)
    ensures |WindowSessions(ss, late)| <= |WindowSessions(ss, early)|
    ensures forall s :: s in WindowSessions(ss, late) ==> s in WindowSessions(ss, early)
  {
    if ss != [] {
      var p := ss[..|ss| - 1];
      var s := ss[|ss| - 1];
      WindowShrinks(p, early, late);
      WindowSessionsSpec(ss, early);
      WindowSessionsSpec(ss, late);
      if s.status == Completed && InWindow(late, s.startTime) {
        LessEqTransitive(early, late, s.startTime);
      }
    }
  }

  // ---------------------------------------------------------------- counts

  /** Every blocker is open or resolved, so the two counts add up to all
      blockers. */
  lemma {:induction false} StatusSplit(bs: seq<Blocker>)
    ensures |WithStatus(bs, Open)| + |WithStatus(bs, Resolved)| == |bs|
  {
    if bs != [] {
      StatusSplit(bs[..|bs| - 1]);
    }
  }

  lemma {:induction false} WithStatusSpec(bs: seq<Blocker>, st: BlockerStatus)
    ensures forall b :: b in WithStatus(bs, st) <==> b in bs && b.status == st
  {
    if bs != [] {
      var p := bs[..|bs| - 1];
      WithStatusSpec(p, st);
      assert bs == p + [bs[|bs| - 1]];
    }
  }

  /** Flooring each session to whole seconds loses at most 999 ms per
      session. */
  lemma {:induction false} TotalTimeBounds(ss: seq<Session>)
    ensures TotalTime(ss) * 1000 <= TotalMillis(ss) <= TotalTime(ss) * 1000 + 999 * |ss|
  {
    if ss != [] {
      TotalTimeBounds(ss[..|ss| - 1]);
    }
  }

  /** The total splits over the parts of the list. */
  lemma {:induction false} TotalTimeAppend(a: seq<Session>, b: seq<Session>)
    ensures TotalTime(a + b) == TotalTime(a) + TotalTime(b)
  {
    if b == [] {
      assert a + b == a;
    } else {
      var p := b[..|b| - 1];
      TotalTimeAppend(a, p);
      assert (a + b)[..|a + b| - 1] == a + p;
    }
  }

  lemma {:induction false} SessionLinesSpec(ss: seq<Session>, localeDate: Instant -> string)
    ensures |SessionLines(ss, localeDate)| == |ss|
    ensures forall i :: 0 <= i < |ss| ==> SessionLines(ss, localeDate)[i] == LineOf(ss[i], localeDate)
  {
    if ss != [] {
      var p := ss[..|ss| - 1];
      SessionLinesSpec(p, localeDate);
      forall i | 0 <= i < |p| ensures SessionLines(ss, localeDate)[i] == LineOf(ss[i], localeDate) {
        assert ss[i] == p[i];
      }
    }
  }

  /** The report counts what it lists: one line per session of the window in
      list order, and every blocker of the window once as open or resolved. */
  lemma ReportSpec(ss: seq<Session>, ideas: seq<Idea>, bs: seq<Blocker>, startIso: string,
                   localeDate: Instant -> string)
    ensures var r := BuildReport(ss, ideas, bs, startIso, localeDate);
      var sw := WindowSessions(ss, startIso);
      && r.sessionCount == |r.sessions| == |sw|
      && r.openBlockers + r.resolvedBlockers == r.blockerCount
      && r.blockerCount == |WindowBlockers(bs, startIso)|
      && r.ideaCount == |WindowIdeas(ideas, startIso)|
      && r.totalTime * 1000 <= TotalMillis(sw) <= r.totalTime * 1000 + 999 * r.sessionCount
      && (forall i :: 0 <= i < |sw| ==>
            r.sessions[i].goal == sw[i].goal && r.sessions[i].duration == FormatDuration(SessionDuration(sw[i])))
  {
    var sw := WindowSessions(ss, startIso);
    SessionLinesSpec(sw, localeDate);
    StatusSplit(WindowBlockers(bs, startIso));
    TotalTimeBounds(sw);
  }

  // ---------------------------------------------------------------- markdown

  function ScopeLabel(scope: Scope): string {
    match scope
    case Weekly => "周报"
    case Monthly => "月报"
  }

  function TitleLine(scope: Scope): string {
    "# VibeLog " + ScopeLabel(scope)
  }

  /** `- Sessions: N 次，共 D`. */
  function SessionsLine(r: ReportData): string {
    "- Sessions: " + IntToString(r.sessionCount) + " 次，共 " + FormatDuration(r.totalTime)
  }

  /** `- Ideas: N 条`. */
  function IdeasLine(r: ReportData): string {
    "- Ideas: " + IntToString(r.ideaCount) + " 条"
  }

  /** `- Blockers: N 个（已解决 R，待解决 O）`. */
  function BlockersLine(r: ReportData): string {
    "- Blockers: " + IntToString(r.blockerCount) + " 个（已解决 " + IntToString(r.resolvedBlockers)
      + "，待解决 " + IntToString(r.openBlockers) + "）"
  }

  /** The title, the overview and the blank line after it. */
  function OverviewLines(scope: Scope, r: ReportData): seq<string> {
    [TitleLine(scope), "", "## 概览", SessionsLine(r), IdeasLine(r), BlockersLine(r), ""]
  }

  /** `- date | goal (duration)`. */
  function SessionText(s: SessionLine): string {
    "- " + s.date + " | " + s.goal + " (" + s.duration + ")"
  }

  function SessionTexts(ls: seq<SessionLine>): seq<string> {
    if ls == [] then [] else SessionTexts(ls[..|ls| - 1]) + [SessionText(ls[|ls| - 1])]
  }

  /** The lines of the report, before they are joined. */
  function ReportLines(scope: Scope, r: ReportData): seq<string> {
    OverviewLines(scope, r)
      + (if r.sessions == [] then [] else ["## Sessions", ""] + SessionTexts(r.sessions))
  }

  lemma {:induction false} SessionTextsSpec(ls: seq<SessionLine>)
    ensures |SessionTexts(ls)| == |ls|
    ensures forall i :: 0 <= i < |ls| ==> SessionTexts(ls)[i] == SessionText(ls[i])
  {
    if ls != [] {
      SessionTextsSpec(ls[..|ls| - 1]);
    }
  }

  /** The overview lines: the title, then sessions, ideas and blockers in
      that order; none of them is the session heading. */
  lemma OverviewLayout(scope: Scope, r: ReportData)
    ensures var ls := OverviewLines(scope, r);
      && |ls| == 7
      && ls[0] == "# VibeLog " + ScopeLabel(scope)
      && ls[2] == "## 概览"
      && ls[3][..12] == "- Sessions: "
      && ls[4][..9] == "- Ideas: "
      && ls[5][..12] == "- Blockers: "
      && "## Sessions" !in ls
  {
    var ls := OverviewLines(scope, r);
    assert TitleLine(scope)[1] == ' ';
    assert |ls[2]| == 5;
    assert SessionsLine(r)[..12] == "- Sessions: ";
    assert IdeasLine(r)[..9] == "- Ideas: ";
    assert BlockersLine(r)[..12] == "- Blockers: ";
  }

  /** The layout: the title and the three overview lines come first in
      fixed order; the session heading is present iff there are sessions,
      and is then followed by a blank line and one line per session, in
      order. */
  lemma ReportLayout(scope: Scope, r: ReportData)
    ensures var ls := ReportLines(scope, r);
      && |ls| == (if r.sessions == [] then 7 else 9 + |r.sessions|)
      && ls[..7] == OverviewLines(scope, r)
      && (r.sessions != [] <==> "## Sessions" in ls)
      && (r.sessions != [] ==>
            && ls[7] == "## Sessions"
            && ls[8] == ""
            && forall i :: 0 <= i < |r.sessions| ==> ls[9 + i] == SessionText(r.sessions[i]))
  {
    var ls := ReportLines(scope, r);
    SessionTextsSpec(r.sessions);
    OverviewLayout(scope, r);
    if r.sessions == [] {
      assert ls == OverviewLines(scope, r);
    } else {
      assert ls[7] == "## Sessions";
    }
  }

  // ---------------------------------------------------------------- the text

  /** A number's text holds no line break. */
  lemma IntTextNoBreak(n: int)
    ensures '\n' !in IntToString(n)
  {
    if n < 0 {
      DigitsHaveNo(NatToString(-n), '\n');
    } else {
      DigitsHaveNo(NatToString(n), '\n');
    }
  }

  lemma DurationNoBreak(seconds: int)
    ensures '\n' !in FormatDuration(seconds)
  {
    IntTextNoBreak(seconds / 3600);
    IntTextNoBreak(JsRem(seconds, 3600) / 60);
    IntTextNoBreak(seconds);
  }

  lemma OverviewNoBreak(scope: Scope, r: ReportData)
    ensures forall l :: l in OverviewLines(scope, r) ==> '\n' !in l
  {
    assert '\n' !in TitleLine(scope);
    SessionsLineNoBreak(r);
    IdeasLineNoBreak(r);
    BlockersLineNoBreak(r);
  }

  lemma SessionsLineNoBreak(r: ReportData)
    ensures '\n' !in SessionsLine(r)
  {
    IntTextNoBreak(r.sessionCount);
    DurationNoBreak(r.totalTime);
  }

  lemma IdeasLineNoBreak(r: ReportData)
    ensures '\n' !in IdeasLine(r)
  {
    IntTextNoBreak(r.ideaCount);
  }

  lemma BlockersLineNoBreak(r: ReportData)
    ensures '\n' !in BlockersLine(r)
  {
    IntTextNoBreak(r.blockerCount);
    IntTextNoBreak(r.resolvedBlockers);
    IntTextNoBreak(r.openBlockers);
  }

  lemma {:induction false} SessionTextsNoBreak(ls: seq<SessionLine>)
    requires forall s :: s in ls ==> '\n' !in s.goal && '\n' !in s.date && '\n' !in s.duration
    ensures forall l :: l in SessionTexts(ls) ==> '\n' !in l
  {
    if ls != [] {
      var p := ls[..|ls| - 1];
      assert forall s :: s in p ==> s in ls;
      SessionTextsNoBreak(p);
      assert ls[|ls| - 1] in ls;
    }
  }

  /** No line of the report breaks, as long as no goal, date or duration
      text holds a line break. */
  lemma LinesNoBreak(scope: Scope, r: ReportData)
    requires forall s :: s in r.sessions ==> '\n' !in s.goal && '\n' !in s.date && '\n' !in s.duration
    ensures forall i :: 0 <= i < |ReportLines(scope, r)| ==> '\n' !in ReportLines(scope, r)[i]
  {
    OverviewNoBreak(scope, r);
    SessionTextsNoBreak(r.sessions);
  }

  /** Splitting the report text at line breaks gives back its lines. */
  lemma ReportTextLines(scope: Scope, r: ReportData)
    requires forall s :: s in r.sessions ==> '\n' !in s.goal && '\n' !in s.date && '\n' !in s.duration
    ensures Split(Join(ReportLines(scope, r), '\n'), '\n') == ReportLines(scope, r)
  {
    LinesNoBreak(scope, r);
    SplitJoin(ReportLines(scope, r), '\n');
  }

  /** `generateReportMarkdown`: pushes the overview, then the session
      heading and one line per session when there are sessions, and joins
      the lines with line breaks. */
  method GenerateReportMarkdown(scope: Scope, r: ReportData) returns (text: string)
    ensures text == Join(ReportLines(scope, r), '\n')
  {
    var lines := OverviewLines(scope, r);
    if |r.sessions| > 0 {
      lines := lines + ["## Sessions", ""];
      ghost var head := lines;
      for i := 0 to |r.sessions|
        invariant lines == head + SessionTexts(r.sessions[..i])
      {
        assert r.sessions[..i + 1][..i] == r.sessions[..i];
        lines := lines + [SessionText(r.sessions[i])];
      }
      assert r.sessions[..|r.sessions|] == r.sessions;
      assert lines == ReportLines(scope, r);
    } else {
      assert lines == ReportLines(scope, r);
    }
    text := Join(lines, '\n');
  }
}
