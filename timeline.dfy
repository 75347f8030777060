/** The journal timeline of the home page (src/app/page.tsx,
    getGroupedRecords): completed sessions, ideas and blockers become items,
    items are bucketed by the UTC day of their timestamp, days are listed
    newest first and the items of a day newest first. */
module Timeline {
  import opened Strings
  import opened Types
  import opened Clock

  // ---------------------------------------------------------------- items

  datatype Kind = SessionKind | IdeaKind | BlockerKind

  /** The extra line an item shows: a session's duration, or a blocker's
      solution and status. */
  datatype Meta =
    | NoMeta
    | DurationMeta(duration: string)
    | BlockerMeta(solution: Option<string>, status: BlockerStatus)

  /** One row of the timeline. `timestamp` is the `Date` built from the
      record's instant, held as its time value (milliseconds since
      1970-01-01T00:00:00.000Z); the locale clock text shown beside it is
      not modelled. */
  datatype Item = Item(
    id: string,
    kind: Kind,
    content: string,
    timestamp: int,
    images: Option<seq<string>>,
    meta: Meta)

  /** The items of one day, under its `YYYY-MM-DD` key. */
  datatype Group = Group(dateKey: string, items: seq<Item>)

  /** An item together with the day key it is filed under. */
  datatype Entry = Entry(day: string, item: Item)

  /** A completed session shows its goal at its start time, with its duration. */
  function SessionItem(s: Session): Item {
    Item(s.id, SessionKind, s.goal, Millis(s.startTime), None, DurationMeta(FormatDuration(SessionDuration(s))))
  }

  /** An idea shows its text and pictures at its creation time. */
  function IdeaItem(i: Idea): Item {
    Item(i.id, IdeaKind, i.content, Millis(i.createdAt), i.images, NoMeta)
  }

  /** A blocker shows its problem at its creation time; an empty solution is
      shown as none (`b.solution || undefined`). */
  function BlockerItem(b: Blocker): Item {
    Item(b.id, BlockerKind, b.problem, Millis(b.createdAt), None,
      BlockerMeta(if b.solution == Some("") then None else b.solution, b.status))
  }

  function SessionEntry(s: Session): Entry {
    Entry(DateKey(s.startTime), SessionItem(s))
  }

  function IdeaEntry(i: Idea): Entry {
    Entry(DateKey(i.createdAt), IdeaItem(i))
  }

  function BlockerEntry(b: Blocker): Entry {
    Entry(DateKey(b.createdAt), BlockerItem(b))
  }

  /** The entries of the completed sessions, in list order; active sessions
      have none. */
  function SessionEntries(ss: seq<Session>): seq<Entry> {
    if ss == [] then []
    else
      var s := ss[|ss| - 1];
      SessionEntries(ss[..|ss| - 1]) + (if s.status == Completed then [SessionEntry(s)] else [])
  }

  function IdeaEntries(ideas: seq<Idea>): seq<Entry> {
    if ideas == [] then [] else IdeaEntries(ideas[..|ideas| - 1]) + [IdeaEntry(ideas[|ideas| - 1])]
  }

  function BlockerEntries(bs: seq<Blocker>): seq<Entry> {
    if bs == [] then [] else BlockerEntries(bs[..|bs| - 1]) + [BlockerEntry(bs[|bs| - 1])]
  }

  /** Every entry the page files, in the order it files them. */
  function TimelineEntries(ss: seq<Session>, ideas: seq<Idea>, bs: seq<Blocker>): seq<Entry> {
    SessionEntries(ss) + IdeaEntries(ideas) + BlockerEntries(bs)
  }

  /** The filed entries are exactly those of the completed sessions, the
      ideas and the blockers. */
  lemma TimelineEntriesSpec(ss: seq<Session>, ideas: seq<Idea>, bs: seq<Blocker>)
    ensures forall e :: e in TimelineEntries(ss, ideas, bs) <==>
      || (exists s :: s in ss && s.status == Completed && e == SessionEntry(s))
      || (exists i :: i in ideas && e == IdeaEntry(i))
      || (exists b :: b in bs && e == BlockerEntry(b))
  {
    SessionEntriesSpec(ss);
    IdeaEntriesSpec(ideas);
    BlockerEntriesSpec(bs);
  }

  lemma {:induction false} SessionEntriesSpec(ss: seq<Session>)
    ensures forall e :: e in SessionEntries(ss) <==> exists s :: s in ss && s.status == Completed && e == SessionEntry(s)
  {
    if ss != [] {
      var p := ss[..|ss| - 1];
      SessionEntriesSpec(p);
      assert ss == p + [ss[|ss| - 1]];
    }
  }

  lemma {:induction false} IdeaEntriesSpec(ideas: seq<Idea>)
    ensures forall e :: e in IdeaEntries(ideas) <==> exists i :: i in ideas && e == IdeaEntry(i)
  {
    if ideas != [] {
      var p := ideas[..|ideas| - 1];
      IdeaEntriesSpec(p);
      assert ideas == p + [ideas[|ideas| - 1]];
    }
  }

  lemma {:induction false} BlockerEntriesSpec(bs: seq<Blocker>)
    ensures forall e :: e in BlockerEntries(bs) <==> exists b :: b in bs && e == BlockerEntry(b)
  {
    if bs != [] {
      var p := bs[..|bs| - 1];
      BlockerEntriesSpec(p);
      assert bs == p + [bs[|bs| - 1]];
    }
  }

  // ---------------------------------------------------------------- days

  /** The items filed under day k, in filing order. */
  function OnDay(es: seq<Entry>, k: string): seq<Item> {
    if es == [] then []
    else
      var e := es[|es| - 1];
      OnDay(es[..|es| - 1], k) + (if e.day == k then [e.item] else [])
  }

  /** The day of each entry, in filing order. */
  function Days(es: seq<Entry>): seq<string> {
    if es == [] then [] else Days(es[..|es| - 1]) + [es[|es| - 1].day]
  }

  lemma {:induction false} DaysSpec(es: seq<Entry>)
    ensures forall k :: k in Days(es) <==> exists e :: e in es && e.day == k
  {
    if es != [] {
      var p := es[..|es| - 1];
      DaysSpec(p);
      assert es == p + [es[|es| - 1]];
    }
  }

  /** The day keys in the order their first entry was filed: the keys of the
      `groups` map in its iteration order. */
  function DistinctKeys(es: seq<Entry>): seq<string> {
    Dedup(Days(es))
  }

  /** The day keys are listed once each, and they are the days of the entries. */
  lemma DistinctKeysSpec(es: seq<Entry>)
    ensures Distinct(DistinctKeys(es))
    ensures forall k :: k in DistinctKeys(es) <==> exists e :: e in es && e.day == k
  {
    DedupSpec(Days(es));
    DaysSpec(es);
  }

  /** Day k's bucket holds each item as often as it was filed under k. */
  lemma {:induction false} OnDayCount(es: seq<Entry>, k: string, x: Item)
    ensures multiset(OnDay(es, k))[x] == multiset(es)[Entry(k, x)]
  {
    if es != [] {
      var p := es[..|es| - 1];
      OnDayCount(p, k, x);
      assert es == p + [es[|es| - 1]];
    }
  }

  lemma {:induction false} OnUnfiledDay(es: seq<Entry>, k: string)
    requires forall e :: e in es ==> e.day != k
    ensures OnDay(es, k) == []
  {
    if es != [] {
      OnUnfiledDay(es[..|es| - 1], k);
      assert es[|es| - 1] in es;
    }
  }

  lemma OnDayMembers(es: seq<Entry>, k: string)
    ensures forall x :: x in OnDay(es, k) <==> Entry(k, x) in es
  {
    forall x ensures x in OnDay(es, k) <==> Entry(k, x) in es {
      OnDayCount(es, k, x);
      assert x in OnDay(es, k) <==> x in multiset(OnDay(es, k));
      assert Entry(k, x) in es <==> Entry(k, x) in multiset(es);
    }
  }

  // ---------------------------------------------------------------- order within a day

  predicate NewestFirst(s: seq<Item>) {
    forall i, j :: 0 <= i < j < |s| ==> s[j].timestamp <= s[i].timestamp
  }

  /** Places x before the first item that is not newer than it, so that of
      two items with the same instant the earlier filed stays first. */
  function InsertByTime(x: Item, s: seq<Item>): seq<Item> {
    if s == [] || s[0].timestamp <= x.timestamp then [x] + s
    else [s[0]] + InsertByTime(x, s[1..])
  }

  /** `items.sort((a, b) => b.timestamp.getTime() - a.timestamp.getTime())`:
      a stable sort, newest first. */
  function SortByTimeDesc(s: seq<Item>): seq<Item> {
    if s == [] then [] else InsertByTime(s[0], SortByTimeDesc(s[1..]))
  }

  /** The items of a list stamped with instant `time`, in list order. */
  function AtTime(s: seq<Item>, time: int): seq<Item> {
    if s == [] then []
    else (if s[0].timestamp == time then [s[0]] else []) + AtTime(s[1..], time)
  }

  lemma AtTimeCons(x: Item, s: seq<Item>, time: int)
    ensures AtTime([x] + s, time) == (if x.timestamp == time then [x] else []) + AtTime(s, time)
  {
    assert ([x] + s)[1..] == s;
  }

  /** Insertion puts x ahead of the items with its own instant. */
  lemma {:induction false} InsertByTimeAtTime(x: Item, s: seq<Item>, time: int)
    ensures AtTime(InsertByTime(x, s), time) == (if x.timestamp == time then [x] else []) + AtTime(s, time)
  {
    if s == [] || s[0].timestamp <= x.timestamp {
      AtTimeCons(x, s, time);
    } else {
      InsertByTimeAtTime(x, s[1..], time);
      AtTimeCons(s[0], InsertByTime(x, s[1..]), time);
      AtTimeCons(s[0], s[1..], time);
      assert [s[0]] + s[1..] == s;
    }
  }

  /** The sort is stable: the items stamped with any one instant come out in
      the order they went in. */
  lemma {:induction false} SortByTimeDescStable(s: seq<Item>, time: int)
    ensures AtTime(SortByTimeDesc(s), time) == AtTime(s, time)
  {
    if s != [] {
      SortByTimeDescStable(s[1..], time);
      InsertByTimeAtTime(s[0], SortByTimeDesc(s[1..]), time);
    }
  }

  lemma NewestFirstCons(x: Item, t: seq<Item>)
    requires NewestFirst(t)
    requires forall y | y in t :: y.timestamp <= x.timestamp
    ensures NewestFirst([x] + t)
  {
    var r := [x] + t;
    forall i, j | 0 <= i < j < |r| ensures r[j].timestamp <= r[i].timestamp {
      assert r[j] == t[j - 1];
      if i > 0 {
        assert r[i] == t[i - 1];
      }
    }
  }

  lemma {:induction false} InsertByTimeMultiset(x: Item, s: seq<Item>)
    ensures multiset(InsertByTime(x, s)) == multiset(s) + multiset{x}
  {
    if s != [] && x.timestamp < s[0].timestamp {
      InsertByTimeMultiset(x, s[1..]);
      assert s == [s[0]] + s[1..];
    }
  }

  lemma {:induction false} InsertByTimeSorted(x: Item, s: seq<Item>)
    requires NewestFirst(s)
    ensures NewestFirst(InsertByTime(x, s))
  {
    if s != [] && x.timestamp < s[0].timestamp {
      var t := InsertByTime(x, s[1..]);
      assert NewestFirst(s[1..]) by {
        forall i, j | 0 <= i < j < |s[1..]| ensures s[1..][j].timestamp <= s[1..][i].timestamp {
          assert s[1..][i] == s[i + 1] && s[1..][j] == s[j + 1];
        }
      }
      InsertByTimeSorted(x, s[1..]);
      InsertByTimeMultiset(x, s[1..]);
      forall y | y in t ensures y.timestamp <= s[0].timestamp {
        assert y in multiset(t);
        if y != x {
          var j :| 0 <= j < |s[1..]| && s[1..][j] == y;
          assert s[j + 1] == y;
        }
      }
      NewestFirstCons(s[0], t);
    } else if s != [] {
      forall y | y in s ensures y.timestamp <= x.timestamp {
        var j :| 0 <= j < |s| && s[j] == y;
      }
      NewestFirstCons(x, s);
    }
  }

  /** Sorting a day's items keeps exactly those items and puts the newest
      first. */
  lemma {:induction false} SortByTimeDescSpec(s: seq<Item>)
    ensures multiset(SortByTimeDesc(s)) == multiset(s)
    ensures NewestFirst(SortByTimeDesc(s))
  {
    if s != [] {
      SortByTimeDescSpec(s[1..]);
      InsertByTimeMultiset(s[0], SortByTimeDesc(s[1..]));
      InsertByTimeSorted(s[0], SortByTimeDesc(s[1..]));
      assert s == [s[0]] + s[1..];
    }
  }

  // ---------------------------------------------------------------- the timeline

  /** The day keys sorted by `b.localeCompare(a)`. Day keys are distinct
      strings of digits and hyphens, for which that comparator is the reverse
      of code-point order, so this is the ascending sort reversed. */
  function GroupKeys(es: seq<Entry>): seq<string> {
    Reverse(SortAsc(DistinctKeys(es)))
  }

  /** The group of day k. */
  function GroupOf(es: seq<Entry>, k: string): Group {
    Group(k, SortByTimeDesc(OnDay(es, k)))
  }

  /** The groups of the days ks, in that order. */
  function GroupsFor(es: seq<Entry>, ks: seq<string>): seq<Group> {
    if ks == [] then [] else GroupsFor(es, ks[..|ks| - 1]) + [GroupOf(es, ks[|ks| - 1])]
  }

  /** What getGroupedRecords returns for the filed entries. */
  function GroupedRecords(es: seq<Entry>): seq<Group> {
    GroupsFor(es, GroupKeys(es))
  }

  /** The items of a group, each with the group's day. */
  function Tagged(k: string, xs: seq<Item>): seq<Entry> {
    if xs == [] then [] else Tagged(k, xs[..|xs| - 1]) + [Entry(k, xs[|xs| - 1])]
  }

  /** The items of the groups, group after group, each with its group's day. */
  function Flatten(gs: seq<Group>): seq<Entry> {
    if gs == [] then [] else Flatten(gs[..|gs| - 1]) + Tagged(gs[|gs| - 1].dateKey, gs[|gs| - 1].items)
  }

  lemma {:induction false} TaggedCount(k: string, xs: seq<Item>, e: Entry)
    ensures multiset(Tagged(k, xs))[e] == if e.day == k then multiset(xs)[e.item] else 0
  {
    if xs != [] {
      var p := xs[..|xs| - 1];
      TaggedCount(k, p, e);
      assert xs == p + [xs[|xs| - 1]];
    }
  }

  lemma {:induction false} GroupsForShape(es: seq<Entry>, ks: seq<string>)
    ensures |GroupsFor(es, ks)| == |ks|
    ensures forall j :: 0 <= j < |ks| ==> GroupsFor(es, ks)[j] == GroupOf(es, ks[j])
  {
    if ks != [] {
      GroupsForShape(es, ks[..|ks| - 1]);
    }
  }

  /** The timeline's keys are the days of the entries, each once. */
  lemma TimelineKeySet(es: seq<Entry>)
    ensures |GroupedRecords(es)| == |GroupKeys(es)|
    ensures forall j :: 0 <= j < |GroupKeys(es)| ==> GroupedRecords(es)[j] == GroupOf(es, GroupKeys(es)[j])
    ensures forall k :: k in GroupKeys(es) <==> exists e :: e in es && e.day == k
    ensures StrictlyDescending(GroupKeys(es))
    ensures Distinct(GroupKeys(es))
  {
    var ks := GroupKeys(es);
    DistinctKeysSpec(es);
    SortedReversedDistinct(DistinctKeys(es));
    GroupsForShape(es, ks);
    forall i, j | 0 <= i < j < |ks| ensures ks[i] != ks[j] {
      LessIrreflexive(ks[i]);
    }
  }

  /** The days of a list of groups, in order. */
  function DayKeys(gs: seq<Group>): (ks: seq<string>)
    ensures |ks| == |gs| && forall i :: 0 <= i < |gs| ==> ks[i] == gs[i].dateKey
  {
    seq(|gs|, i requires 0 <= i < |gs| => gs[i].dateKey)
  }

  /** Group keys strictly decreasing: each day once, newest first. */
  predicate DaysDescending(gs: seq<Group>) {
    StrictlyDescending(DayKeys(gs))
  }

  lemma DaysDescendingPairs(gs: seq<Group>)
    ensures DaysDescending(gs) <==> forall i, j :: 0 <= i < j < |gs| ==> Less(gs[j].dateKey, gs[i].dateKey)
  {
    var ks := DayKeys(gs);
    assert forall i :: 0 <= i < |gs| ==> ks[i] == gs[i].dateKey;
  }

  /** The days of the timeline are the days of the entries, once each, from
      the newest day to the oldest. */
  lemma TimelineKeys(es: seq<Entry>)
    ensures var t := GroupedRecords(es);
      && DaysDescending(t)
      && (forall e :: e in es ==> exists g :: g in t && g.dateKey == e.day)
      && (forall g :: g in t ==> exists e :: e in es && e.day == g.dateKey)
  {
    var ks := GroupKeys(es);
    var t := GroupedRecords(es);
    TimelineKeySet(es);
    forall e | e in es ensures exists g :: g in t && g.dateKey == e.day {
      assert e.day in ks;
      var j :| 0 <= j < |ks| && ks[j] == e.day;
      assert t[j].dateKey == e.day;
    }
    forall g | g in t ensures exists e :: e in es && e.day == g.dateKey {
      var j :| 0 <= j < |t| && t[j] == g;
      assert ks[j] in ks;
    }
  }

  /** A group that holds at least one item, newest first, and only items
      filed under its own day. */
  ghost predicate WellFiled(g: Group, es: seq<Entry>) {
    && g.items != []
    && NewestFirst(g.items)
    && (forall x :: x in g.items ==> Entry(g.dateKey, x) in es)
  }

  /** Every group of the timeline is well filed. */
  lemma TimelineGroups(es: seq<Entry>)
    ensures forall g :: g in GroupedRecords(es) ==> WellFiled(g, es)
  {
    var ks := GroupKeys(es);
    var t := GroupedRecords(es);
    TimelineKeySet(es);
    forall j | 0 <= j < |t| ensures WellFiled(t[j], es) {
      assert ks[j] in ks;
      GroupInvariant(es, ks[j]);
    }
  }

  lemma GroupInvariant(es: seq<Entry>, k: string)
    requires exists e :: e in es && e.day == k
    ensures var g := GroupOf(es, k);
      && g.items != []
      && NewestFirst(g.items)
      && (forall x :: x in g.items <==> Entry(k, x) in es)
      && (forall x :: multiset(g.items)[x] == multiset(es)[Entry(k, x)])
  {
    var day := OnDay(es, k);
    var g := GroupOf(es, k);
    SortByTimeDescSpec(day);
    OnDayMembers(es, k);
    forall x ensures multiset(g.items)[x] == multiset(es)[Entry(k, x)] {
      OnDayCount(es, k, x);
    }
    var w :| w in es && w.day == k;
    assert w == Entry(k, w.item);
    assert w.item in multiset(g.items);
    forall x ensures x in g.items <==> x in day {
      assert x in g.items <==> x in multiset(g.items);
      assert x in day <==> x in multiset(day);
    }
  }

  /** Across the groups of days ks (each listed once), an entry occurs as
      often as it was filed when its day is among ks, and otherwise not at
      all. */
  lemma {:induction false} FlattenCount(es: seq<Entry>, ks: seq<string>, e: Entry)
    requires Distinct(ks)
    ensures multiset(Flatten(GroupsFor(es, ks)))[e] == if e.day in ks then multiset(es)[e] else 0
  {
    if ks != [] {
      var p := ks[..|ks| - 1];
      var k := ks[|ks| - 1];
      assert Distinct(p);
      FlattenCount(es, p, e);
      var gs := GroupsFor(es, ks);
      assert gs[..|gs| - 1] == GroupsFor(es, p);
      SortByTimeDescSpec(OnDay(es, k));
      OnDayCount(es, k, e.item);
      TaggedCount(k, SortByTimeDesc(OnDay(es, k)), e);
      assert ks == p + [k];
      assert k !in p;
      assert e.day == k ==> e == Entry(k, e.item);
    }
  }

  /** Every filed entry appears in the timeline, under its own day, exactly
      as often as it was filed, and nothing else appears. */
  lemma TimelineExactlyOnce(es: seq<Entry>)
    ensures multiset(Flatten(GroupedRecords(es))) == multiset(es)
  {
    var ks := GroupKeys(es);
    TimelineKeySet(es);
    forall e ensures multiset(Flatten(GroupedRecords(es)))[e] == multiset(es)[e] {
      FlattenCount(es, ks, e);
      if e !in es {
        assert multiset(es)[e] == 0;
      }
    }
  }

  /** Shown by the timeline, each in the group of its own day: every
      completed session, every idea and every blocker. */
  lemma TimelineShowsRecords(ss: seq<Session>, ideas: seq<Idea>, bs: seq<Blocker>)
    ensures var t := GroupedRecords(TimelineEntries(ss, ideas, bs));
      && (forall s :: s in ss && s.status == Completed ==>
            exists g :: g in t && g.dateKey == DateKey(s.startTime) && SessionItem(s) in g.items)
      && (forall i :: i in ideas ==>
            exists g :: g in t && g.dateKey == DateKey(i.createdAt) && IdeaItem(i) in g.items)
      && (forall b :: b in bs ==>
            exists g :: g in t && g.dateKey == DateKey(b.createdAt) && BlockerItem(b) in g.items)
  {
    var es := TimelineEntries(ss, ideas, bs);
    TimelineEntriesSpec(ss, ideas, bs);
    forall s | s in ss && s.status == Completed
      ensures exists g :: g in GroupedRecords(es) && g.dateKey == DateKey(s.startTime) && SessionItem(s) in g.items
    {
      EntryShown(es, SessionEntry(s));
    }
    forall i | i in ideas
      ensures exists g :: g in GroupedRecords(es) && g.dateKey == DateKey(i.createdAt) && IdeaItem(i) in g.items
    {
      EntryShown(es, IdeaEntry(i));
    }
    forall b | b in bs
      ensures exists g :: g in GroupedRecords(es) && g.dateKey == DateKey(b.createdAt) && BlockerItem(b) in g.items
    {
      EntryShown(es, BlockerEntry(b));
    }
  }

  lemma EntryShown(es: seq<Entry>, e: Entry)
    requires e in es
    ensures exists g :: g in GroupedRecords(es) && g.dateKey == e.day && e.item in g.items
  {
    var ks := GroupKeys(es);
    TimelineKeySet(es);
    assert e.day in ks;
    var j :| 0 <= j < |ks| && ks[j] == e.day;
    GroupInvariant(es, e.day);
    assert e == Entry(e.day, e.item);
    assert GroupedRecords(es)[j] in GroupedRecords(es);
  }

  /** A session item of the timeline always comes from a completed session of
      its day: an active session is never shown. */
  lemma TimelineHidesActiveSessions(ss: seq<Session>, ideas: seq<Idea>, bs: seq<Blocker>)
    ensures forall g, x :: g in GroupedRecords(TimelineEntries(ss, ideas, bs)) && x in g.items && x.kind == SessionKind ==>
      exists s :: s in ss && s.status == Completed && x == SessionItem(s) && g.dateKey == DateKey(s.startTime)
  {
    var es := TimelineEntries(ss, ideas, bs);
    TimelineEntriesSpec(ss, ideas, bs);
    TimelineGroups(es);
  }

  // ---------------------------------------------------------------- getGroupedRecords

  /** The state of the `groups` map after filing `seen`: one bucket per day,
      in first-filed order, holding that day's items in filing order. */
  ghost predicate Filed(buckets: map<string, seq<Item>>, order: seq<string>, seen: seq<Entry>) {
    && order == DistinctKeys(seen)
    && (forall k :: k in buckets <==> k in order)
    && (forall k :: k in buckets ==> buckets[k] == OnDay(seen, k))
  }

  /** One `if (!groups.has(k)) groups.set(k, []); groups.get(k)!.push(x)`. */
  method FileItem(buckets: map<string, seq<Item>>, order: seq<string>, ghost seen: seq<Entry>, k: string, x: Item)
    returns (buckets': map<string, seq<Item>>, order': seq<string>)
    requires Filed(buckets, order, seen)
    ensures Filed(buckets', order', seen + [Entry(k, x)])
  {
    var s := seen + [Entry(k, x)];
    assert s[..|s| - 1] == seen;
    assert Days(s) == Days(seen) + [k];
    assert Days(s)[..|Days(s)| - 1] == Days(seen);
    if k in buckets {
      buckets' := buckets[k := buckets[k] + [x]];
      order' := order;
    } else {
      DistinctKeysSpec(seen);
      OnUnfiledDay(seen, k);
      buckets' := buckets[k := [x]];
      order' := order + [k];
    }
  }

  /** `sessions.filter(s => s.status === "completed").forEach(...)`: file
      the completed sessions into an empty map. */
  method FileSessions(ss: seq<Session>) returns (buckets: map<string, seq<Item>>, order: seq<string>)
    ensures Filed(buckets, order, SessionEntries(ss))
  {
    buckets, order := map[], [];
    var i := 0;
    while i < |ss|
      invariant 0 <= i <= |ss|
      invariant Filed(buckets, order, SessionEntries(ss[..i]))
    {
      var s := ss[i];
      ghost var before := SessionEntries(ss[..i]);
      assert ss[..i + 1][..i] == ss[..i];
      assert SessionEntries(ss[..i + 1]) == before + (if s.status == Completed then [SessionEntry(s)] else []);
      if s.status == Completed {
        buckets, order := FileItem(buckets, order, before, DateKey(s.startTime), SessionItem(s));
      } else {
        assert SessionEntries(ss[..i + 1]) == before;
      }
      i := i + 1;
    }
    assert ss[..i] == ss;
  }

  /** `ideas.forEach(...)`: file every idea after what is already filed. */
  method FileIdeas(buckets: map<string, seq<Item>>, order: seq<string>, ghost seen: seq<Entry>, ideas: seq<Idea>)
    returns (buckets': map<string, seq<Item>>, order': seq<string>)
    requires Filed(buckets, order, seen)
    ensures Filed(buckets', order', seen + IdeaEntries(ideas))
  {
    buckets', order' := buckets, order;
    var i := 0;
    assert seen + IdeaEntries(ideas[..0]) == seen;
    while i < |ideas|
      invariant 0 <= i <= |ideas|
      invariant Filed(buckets', order', seen + IdeaEntries(ideas[..i]))
    {
      var idea := ideas[i];
      ghost var before := IdeaEntries(ideas[..i]);
      assert ideas[..i + 1][..i] == ideas[..i];
      assert IdeaEntries(ideas[..i + 1]) == before + [IdeaEntry(idea)];
      assert seen + IdeaEntries(ideas[..i + 1]) == (seen + before) + [IdeaEntry(idea)];
      buckets', order' := FileItem(buckets', order', seen + before, DateKey(idea.createdAt), IdeaItem(idea));
      i := i + 1;
    }
    assert ideas[..i] == ideas;
  }

  /** `blockers.forEach(...)`: file every blocker after what is already filed. */
  method FileBlockers(buckets: map<string, seq<Item>>, order: seq<string>, ghost seen: seq<Entry>, bs: seq<Blocker>)
    returns (buckets': map<string, seq<Item>>, order': seq<string>)
    requires Filed(buckets, order, seen)
    ensures Filed(buckets', order', seen + BlockerEntries(bs))
  {
    buckets', order' := buckets, order;
    var i := 0;
    assert seen + BlockerEntries(bs[..0]) == seen;
    while i < |bs|
      invariant 0 <= i <= |bs|
      invariant Filed(buckets', order', seen + BlockerEntries(bs[..i]))
    {
      var b := bs[i];
      ghost var before := BlockerEntries(bs[..i]);
      assert bs[..i + 1][..i] == bs[..i];
      assert BlockerEntries(bs[..i + 1]) == before + [BlockerEntry(b)];
      assert seen + BlockerEntries(bs[..i + 1]) == (seen + before) + [BlockerEntry(b)];
      buckets', order' := FileItem(buckets', order', seen + before, DateKey(b.createdAt), BlockerItem(b));
      i := i + 1;
    }
    assert bs[..i] == bs;
  }

  /** `Array.from(groups.entries()).sort(...).map(...)`: the filed days newest
      first, each with its items newest first. */
  method SortedGroups(buckets: map<string, seq<Item>>, order: seq<string>, ghost seen: seq<Entry>)
    returns (groups: seq<Group>)
    requires Filed(buckets, order, seen)
    ensures groups == GroupedRecords(seen)
  {
    var keys := Reverse(SortAsc(order));
    SortAscMembers(order);
    ReverseMembers(SortAsc(order));
    groups := [];
    var j := 0;
    while j < |keys|
      invariant 0 <= j <= |keys|
      invariant groups == GroupsFor(seen, keys[..j])
    {
      assert keys[..j + 1][..j] == keys[..j];
      var k := keys[j];
      assert k in order;
      assert buckets[k] == OnDay(seen, k);
      groups := groups + [Group(k, SortByTimeDesc(buckets[k]))];
      j := j + 1;
    }
    assert keys[..j] == keys;
  }

  /** getGroupedRecords: file completed sessions, then ideas, then blockers
      under their day, then list the days newest first with each day's items
      newest first. */
  method GroupRecords(ss: seq<Session>, ideas: seq<Idea>, bs: seq<Blocker>) returns (groups: seq<Group>)
    ensures groups == GroupedRecords(TimelineEntries(ss, ideas, bs))
  {
    var buckets, order := FileSessions(ss);
    buckets, order := FileIdeas(buckets, order, SessionEntries(ss), ideas);
    buckets, order := FileBlockers(buckets, order, SessionEntries(ss) + IdeaEntries(ideas), bs);
    groups := SortedGroups(buckets, order, TimelineEntries(ss, ideas, bs));
  }
}
