/** The timeline filters of the home page (src/app/page.tsx): a kind tab, a
    month and "has pictures", applied item by item to the grouped timeline;
    and the list of months the month filter offers. */
module Filter {
  import opened Strings
  import opened Types
  import opened Clock
  import opened Timeline

  // ---------------------------------------------------------------- filters

  /** The tab bar: every kind, or one kind only. */
  datatype Tab = AllKinds | OnlyKind(kind: Kind)

  /** The filter panel. No month is `null`; the empty month selects nothing
      either, since the page tests the month for truthiness. */
  datatype Filters = Filters(tab: Tab, month: Option<string>, hasImages: bool)

  predicate StartsWith(s: string, p: string) {
    |p| <= |s| && s[..|p|] == p
  }

  /** `item.images` is present and not empty. */
  predicate HasImages(x: Item) {
    x.images.Some? && |x.images.value| > 0
  }

  /** Whether the month filter is in force. */
  predicate MonthSet(f: Filters) {
    f.month.Some? && f.month.value != ""
  }

  /** Filters that keep everything: the page's reset state. */
  predicate NoFilter(f: Filters) {
    f.tab == AllKinds && !MonthSet(f) && !f.hasImages
  }

  /** The test applied to item x of the group of day `dateKey`, one refusal
      after the other. */
  predicate Keeps(f: Filters, dateKey: string, x: Item) {
    if f.tab.OnlyKind? && x.kind != f.tab.kind then false
    else if MonthSet(f) && !StartsWith(dateKey, f.month.value) then false
    else if f.hasImages && !HasImages(x) then false
    else true
  }

  /** The three conditions, joined by "and". */
  predicate Matches(f: Filters, dateKey: string, x: Item) {
    && (f.tab.OnlyKind? ==> x.kind == f.tab.kind)
    && (MonthSet(f) ==> StartsWith(dateKey, f.month.value))
    && (f.hasImages ==> HasImages(x))
  }

  /** The items of a group that the filters keep, in their order. */
  function KeptItems(f: Filters, dateKey: string, xs: seq<Item>): seq<Item> {
    if xs == [] then []
    else
      var x := xs[|xs| - 1];
      KeptItems(f, dateKey, xs[..|xs| - 1]) + (if Keeps(f, dateKey, x) then [x] else [])
  }

  /** A group with only its kept items. */
  function FilterGroup(f: Filters, g: Group): Group {
    Group(g.dateKey, KeptItems(f, g.dateKey, g.items))
  }

  /** `groupedRecords`: every group filtered, and the groups left empty
      dropped. */
  function FilterGroups(f: Filters, gs: seq<Group>): seq<Group> {
    if gs == [] then []
    else
      var h := FilterGroup(f, gs[|gs| - 1]);
      FilterGroups(f, gs[..|gs| - 1]) + (if h.items == [] then [] else [h])
  }

  // ---------------------------------------------------------------- items

  /** The refusal chain is exactly the conjunction of the three filters. */
  lemma KeepsMatches(f: Filters, dateKey: string, x: Item)
    ensures Keeps(f, dateKey, x) <==> Matches(f, dateKey, x)
  {
  }

  /** An item is kept iff it is in the group and passes all three filters,
      and it is kept as often as it occurs. */
  lemma {:induction false} KeptItemsSpec(f: Filters, dateKey: string, xs: seq<Item>)
    ensures forall x :: x in KeptItems(f, dateKey, xs) <==> x in xs && Matches(f, dateKey, x)
    ensures forall x :: multiset(KeptItems(f, dateKey, xs))[x] == if Matches(f, dateKey, x) then multiset(xs)[x] else 0
  {
    if xs != [] {
      var p := xs[..|xs| - 1];
      KeptItemsSpec(f, dateKey, p);
      assert xs == p + [xs[|xs| - 1]];
      KeepsMatches(f, dateKey, xs[|xs| - 1]);
      forall x ensures x in KeptItems(f, dateKey, xs) <==> x in xs && Matches(f, dateKey, x) {
        KeepsMatches(f, dateKey, x);
      }
    }
  }

  /** Filtering a group splits over its parts: the kept items keep their
      relative order. */
  lemma {:induction false} KeptItemsAppend(f: Filters, dateKey: string, xs: seq<Item>, ys: seq<Item>)
    ensures KeptItems(f, dateKey, xs + ys) == KeptItems(f, dateKey, xs) + KeptItems(f, dateKey, ys)
  {
    if ys == [] {
      assert xs + ys == xs;
    } else {
      var p := ys[..|ys| - 1];
      KeptItemsAppend(f, dateKey, xs, p);
      assert (xs + ys)[..|xs + ys| - 1] == xs + p;
    }
  }

  /** With nothing to filter, a group is kept whole. */
  lemma {:induction false} KeptItemsAll(f: Filters, dateKey: string, xs: seq<Item>)
    requires NoFilter(f)
    ensures KeptItems(f, dateKey, xs) == xs
  {
    if xs != [] {
      KeptItemsAll(f, dateKey, xs[..|xs| - 1]);
    }
  }

  /** A group newest first stays newest first. */
  lemma {:induction false} KeptItemsNewestFirst(f: Filters, dateKey: string, xs: seq<Item>)
    requires NewestFirst(xs)
    ensures NewestFirst(KeptItems(f, dateKey, xs))
  {
    if xs != [] {
      var p := xs[..|xs| - 1];
      var x := xs[|xs| - 1];
      KeptItemsNewestFirst(f, dateKey, p);
      KeptItemsSpec(f, dateKey, p);
      var r := KeptItems(f, dateKey, xs);
      var q := KeptItems(f, dateKey, p);
      if Keeps(f, dateKey, x) {
        forall i, j | 0 <= i < j < |r| ensures r[j].timestamp <= r[i].timestamp {
          if j == |r| - 1 {
            assert r[i] == q[i];
            assert q[i] in p;
            var a :| 0 <= a < |p| && p[a] == q[i];
            assert xs[a] == q[i];
          } else {
            assert r[i] == q[i] && r[j] == q[j];
          }
        }
      }
    }
  }

  // ---------------------------------------------------------------- groups

  /** Each group of the result is a group of the input with its kept items,
      not empty; a group of the input whose kept items are not empty is in
      the result. */
  lemma {:induction false} FilterGroupsSpec(f: Filters, gs: seq<Group>)
    ensures forall h :: h in FilterGroups(f, gs) ==> h.items != [] && exists g :: g in gs && h == FilterGroup(f, g)
    ensures forall g :: g in gs && FilterGroup(f, g).items != [] ==> FilterGroup(f, g) in FilterGroups(f, gs)
  {
    if gs != [] {
      var p := gs[..|gs| - 1];
      FilterGroupsSpec(f, p);
      assert gs == p + [gs[|gs| - 1]];
    }
  }

  /** Filtering splits over the groups: the kept groups keep their relative
      order. */
  lemma {:induction false} FilterGroupsAppend(f: Filters, gs: seq<Group>, hs: seq<Group>)
    ensures FilterGroups(f, gs + hs) == FilterGroups(f, gs) + FilterGroups(f, hs)
  {
    if hs == [] {
      assert gs + hs == gs;
    } else {
      var p := hs[..|hs| - 1];
      FilterGroupsAppend(f, gs, p);
      assert (gs + hs)[..|gs + hs| - 1] == gs + p;
    }
  }

  /** With the filters reset, groups that are not empty are returned as
      they are. */
  lemma {:induction false} FilterGroupsAll(f: Filters, gs: seq<Group>)
    requires NoFilter(f)
    requires forall g :: g in gs ==> g.items != []
    ensures FilterGroups(f, gs) == gs
  {
    if gs != [] {
      var p := gs[..|gs| - 1];
      var g := gs[|gs| - 1];
      assert forall h :: h in p ==> h in gs;
      FilterGroupsAll(f, p);
      KeptItemsAll(f, g.dateKey, g.items);
    }
  }

  /** Days newest first stay newest first. */
  lemma {:induction false} FilterGroupsDescending(f: Filters, gs: seq<Group>)
    requires DaysDescending(gs)
    ensures DaysDescending(FilterGroups(f, gs))
  {
    if gs != [] {
      var p := gs[..|gs| - 1];
      var g := gs[|gs| - 1];
      var r := FilterGroups(f, gs);
      var q := FilterGroups(f, p);
      DaysDescendingPairs(gs);
      assert DaysDescending(p) by {
        DaysDescendingPairs(p);
      }
      FilterGroupsDescending(f, p);
      FilterGroupsSpec(f, p);
      DaysDescendingPairs(q);
      DaysDescendingPairs(r);
      if FilterGroup(f, g).items != [] {
        forall i, j | 0 <= i < j < |r| ensures Less(r[j].dateKey, r[i].dateKey) {
          if j == |r| - 1 {
            assert r[i] == q[i];
            assert q[i] in q;
            var h :| h in p && q[i] == FilterGroup(f, h);
            var a :| 0 <= a < |p| && p[a] == h;
            assert gs[a] == h;
          } else {
            assert r[i] == q[i] && r[j] == q[j];
          }
        }
      }
    }
  }

  // ---------------------------------------------------------------- the filtered timeline

  /** With the filters reset the page shows the whole timeline. */
  lemma FilterTimelineAll(f: Filters, es: seq<Entry>)
    requires NoFilter(f)
    ensures FilterGroups(f, GroupedRecords(es)) == GroupedRecords(es)
  {
    TimelineGroups(es);
    FilterGroupsAll(f, GroupedRecords(es));
  }

  /** The filtered timeline: days newest first, no empty day, items newest
      first, every item filed under its day and passing the three filters;
      and every filed item that passes them is shown under its day. */
  lemma FilterTimeline(f: Filters, es: seq<Entry>)
    ensures var r := FilterGroups(f, GroupedRecords(es));
      && DaysDescending(r)
      && (forall h :: h in r ==> h.items != [] && NewestFirst(h.items))
      && (forall h, x :: h in r && x in h.items ==> Entry(h.dateKey, x) in es && Matches(f, h.dateKey, x))
      && (forall e :: e in es && Matches(f, e.day, e.item) ==> exists h :: h in r && h.dateKey == e.day && e.item in h.items)
  {
    TimelineKeys(es);
    FilterGroupsDescending(f, GroupedRecords(es));
    FilterTimelineSound(f, es);
    FilterTimelineComplete(f, es);
  }

  lemma FilterTimelineSound(f: Filters, es: seq<Entry>)
    ensures var r := FilterGroups(f, GroupedRecords(es));
      && (forall h :: h in r ==> h.items != [] && NewestFirst(h.items))
      && (forall h, x :: h in r && x in h.items ==> Entry(h.dateKey, x) in es && Matches(f, h.dateKey, x))
  {
    var t := GroupedRecords(es);
    var r := FilterGroups(f, t);
    TimelineGroups(es);
    FilterGroupsSpec(f, t);
    forall h | h in r ensures h.items != [] && NewestFirst(h.items)
      && forall x :: x in h.items ==> Entry(h.dateKey, x) in es && Matches(f, h.dateKey, x)
    {
      var g :| g in t && h == FilterGroup(f, g);
      assert WellFiled(g, es);
      KeptItemsNewestFirst(f, g.dateKey, g.items);
      KeptItemsSpec(f, g.dateKey, g.items);
    }
  }

  lemma FilterTimelineComplete(f: Filters, es: seq<Entry>)
    ensures var r := FilterGroups(f, GroupedRecords(es));
      forall e :: e in es && Matches(f, e.day, e.item) ==> exists h :: h in r && h.dateKey == e.day && e.item in h.items
  {
    var t := GroupedRecords(es);
    var r := FilterGroups(f, t);
    FilterGroupsSpec(f, t);
    forall e | e in es && Matches(f, e.day, e.item)
      ensures exists h :: h in r && h.dateKey == e.day && e.item in h.items
    {
      EntryShown(es, e);
      var g :| g in t && g.dateKey == e.day && e.item in g.items;
      KeptItemsSpec(f, g.dateKey, g.items);
      assert e.item in FilterGroup(f, g).items;
      assert FilterGroup(f, g) in r;
    }
  }

  // ---------------------------------------------------------------- months

  function SessionMonths(ss: seq<Session>): seq<string> {
    if ss == [] then []
    else
      var s := ss[|ss| - 1];
      SessionMonths(ss[..|ss| - 1]) + (if s.status == Completed then [MonthKey(s.startTime)] else [])
  }

  function IdeaMonths(ideas: seq<Idea>): seq<string> {
    if ideas == [] then [] else IdeaMonths(ideas[..|ideas| - 1]) + [MonthKey(ideas[|ideas| - 1].createdAt)]
  }

  function BlockerMonths(bs: seq<Blocker>): seq<string> {
    if bs == [] then [] else BlockerMonths(bs[..|bs| - 1]) + [MonthKey(bs[|bs| - 1].createdAt)]
  }

  /** The month of every record the timeline shows, in the order the page
      adds them to its set. */
  function RecordMonths(ss: seq<Session>, ideas: seq<Idea>, bs: seq<Blocker>): seq<string> {
    SessionMonths(ss) + IdeaMonths(ideas) + BlockerMonths(bs)
  }

  /** `Array.from(monthSet).sort().reverse()`. */
  function MonthList(ss: seq<Session>, ideas: seq<Idea>, bs: seq<Blocker>): seq<string> {
    Reverse(SortAsc(Dedup(RecordMonths(ss, ideas, bs))))
  }

  lemma {:induction false} SessionMonthsSpec(ss: seq<Session>)
    ensures forall m :: m in SessionMonths(ss) <==> exists s :: s in ss && s.status == Completed && m == MonthKey(s.startTime)
  {
    if ss != [] {
      var p := ss[..|ss| - 1];
      SessionMonthsSpec(p);
      assert ss == p + [ss[|ss| - 1]];
    }
  }

  lemma {:induction false} IdeaMonthsSpec(ideas: seq<Idea>)
    ensures forall m :: m in IdeaMonths(ideas) <==> exists i :: i in ideas && m == MonthKey(i.createdAt)
  {
    if ideas != [] {
      var p := ideas[..|ideas| - 1];
      IdeaMonthsSpec(p);
      assert ideas == p + [ideas[|ideas| - 1]];
    }
  }

  lemma {:induction false} BlockerMonthsSpec(bs: seq<Blocker>)
    ensures forall m :: m in BlockerMonths(bs) <==> exists b :: b in bs && m == MonthKey(b.createdAt)
  {
    if bs != [] {
      var p := bs[..|bs| - 1];
      BlockerMonthsSpec(p);
      assert bs == p + [bs[|bs| - 1]];
    }
  }

  /** The month of a record is the month part of the day it is filed under. */
  lemma MonthOfEntry(ss: seq<Session>, ideas: seq<Idea>, bs: seq<Blocker>, m: string)
    requires m in RecordMonths(ss, ideas, bs)
    ensures exists e :: e in TimelineEntries(ss, ideas, bs) && m != "" && StartsWith(e.day, m)
  {
    TimelineEntriesSpec(ss, ideas, bs);
    if m in SessionMonths(ss) {
      SessionMonthsSpec(ss);
      var s :| s in ss && s.status == Completed && m == MonthKey(s.startTime);
      MonthPrefix(s.startTime);
      assert SessionEntry(s) in TimelineEntries(ss, ideas, bs);
    } else if m in IdeaMonths(ideas) {
      IdeaMonthsSpec(ideas);
      var i :| i in ideas && m == MonthKey(i.createdAt);
      MonthPrefix(i.createdAt);
      assert IdeaEntry(i) in TimelineEntries(ss, ideas, bs);
    } else {
      BlockerMonthsSpec(bs);
      var b :| b in bs && m == MonthKey(b.createdAt);
      MonthPrefix(b.createdAt);
      assert BlockerEntry(b) in TimelineEntries(ss, ideas, bs);
    }
  }

  /** A day key starts with its month key. */
  lemma MonthPrefix(t: Instant)
    ensures MonthKey(t) != "" && StartsWith(DateKey(t), MonthKey(t))
  {
  }

  /** The month list holds the month of every completed session, idea and
      blocker, once each and nothing else, newest month first. */
  lemma MonthListSpec(ss: seq<Session>, ideas: seq<Idea>, bs: seq<Blocker>)
    ensures var ms := MonthList(ss, ideas, bs);
      && StrictlyDescending(ms)
      && (forall m :: m in ms <==>
            || (exists s :: s in ss && s.status == Completed && m == MonthKey(s.startTime))
            || (exists i :: i in ideas && m == MonthKey(i.createdAt))
            || (exists b :: b in bs && m == MonthKey(b.createdAt)))
  {
    var rs := RecordMonths(ss, ideas, bs);
    DedupSpec(rs);
    SortedReversedDistinct(Dedup(rs));
    SessionMonthsSpec(ss);
    IdeaMonthsSpec(ideas);
    BlockerMonthsSpec(bs);
  }

  /** Choosing any month the page offers, with the other filters reset,
      shows at least one day, and only days of that month. */
  lemma OfferedMonthShowsItems(ss: seq<Session>, ideas: seq<Idea>, bs: seq<Blocker>, m: string)
    requires m in MonthList(ss, ideas, bs)
    ensures var r := FilterGroups(Filters(AllKinds, Some(m), false), GroupedRecords(TimelineEntries(ss, ideas, bs)));
      && r != []
      && forall h :: h in r ==> StartsWith(h.dateKey, m)
  {
    var f := Filters(AllKinds, Some(m), false);
    var es := TimelineEntries(ss, ideas, bs);
    var r := FilterGroups(f, GroupedRecords(es));
    var rs := RecordMonths(ss, ideas, bs);
    DedupSpec(rs);
    SortedReversedDistinct(Dedup(rs));
    MonthOfEntry(ss, ideas, bs, m);
    var e :| e in es && m != "" && StartsWith(e.day, m);
    FilterTimeline(f, es);
    assert Matches(f, e.day, e.item);
    forall h | h in r ensures StartsWith(h.dateKey, m) {
      assert h.items[0] in h.items;
    }
  }

  // ---------------------------------------------------------------- the month list, as the page builds it

  /** `availableMonths`: each record's month is added to a set, which is then
      sorted and reversed. The set is held in insertion order. */
  method AvailableMonths(ss: seq<Session>, ideas: seq<Idea>, bs: seq<Blocker>) returns (months: seq<string>)
    ensures months == MonthList(ss, ideas, bs)
  {
    var monthSet := AddSessionMonths([], [], ss);
    assert [] + SessionMonths(ss) == SessionMonths(ss);
    monthSet := AddIdeaMonths(monthSet, SessionMonths(ss), ideas);
    monthSet := AddBlockerMonths(monthSet, SessionMonths(ss) + IdeaMonths(ideas), bs);
    months := Reverse(SortAsc(monthSet));
  }

  /** Adds the month of each completed session to the set of the months
      `added` so far. */
  method AddSessionMonths(monthSet: seq<string>, ghost added: seq<string>, ss: seq<Session>) returns (monthSet': seq<string>)
    requires monthSet == Dedup(added)
    ensures monthSet' == Dedup(added + SessionMonths(ss))
  {
    monthSet' := monthSet;
    assert added + SessionMonths(ss[..0]) == added;
    for i := 0 to |ss|
      invariant monthSet' == Dedup(added + SessionMonths(ss[..i]))
    {
      ghost var before := added + SessionMonths(ss[..i]);
      assert ss[..i + 1][..i] == ss[..i];
      if ss[i].status == Completed {
        assert added + SessionMonths(ss[..i + 1]) == before + [MonthKey(ss[i].startTime)];
        monthSet' := Add(monthSet', before, MonthKey(ss[i].startTime));
      } else {
        assert added + SessionMonths(ss[..i + 1]) == before;
      }
    }
    assert ss[..|ss|] == ss;
  }

  /** Adds the month of each idea. */
  method AddIdeaMonths(monthSet: seq<string>, ghost added: seq<string>, ideas: seq<Idea>) returns (monthSet': seq<string>)
    requires monthSet == Dedup(added)
    ensures monthSet' == Dedup(added + IdeaMonths(ideas))
  {
    monthSet' := monthSet;
    assert added + IdeaMonths(ideas[..0]) == added;
    for i := 0 to |ideas|
      invariant monthSet' == Dedup(added + IdeaMonths(ideas[..i]))
    {
      ghost var before := added + IdeaMonths(ideas[..i]);
      assert ideas[..i + 1][..i] == ideas[..i];
      assert added + IdeaMonths(ideas[..i + 1]) == before + [MonthKey(ideas[i].createdAt)];
      monthSet' := Add(monthSet', before, MonthKey(ideas[i].createdAt));
    }
    assert ideas[..|ideas|] == ideas;
  }

  /** Adds the month of each blocker. */
  method AddBlockerMonths(monthSet: seq<string>, ghost added: seq<string>, bs: seq<Blocker>) returns (monthSet': seq<string>)
    requires monthSet == Dedup(added)
    ensures monthSet' == Dedup(added + BlockerMonths(bs))
  {
    monthSet' := monthSet;
    assert added + BlockerMonths(bs[..0]) == added;
    for i := 0 to |bs|
      invariant monthSet' == Dedup(added + BlockerMonths(bs[..i]))
    {
      ghost var before := added + BlockerMonths(bs[..i]);
      assert bs[..i + 1][..i] == bs[..i];
      assert added + BlockerMonths(bs[..i + 1]) == before + [MonthKey(bs[i].createdAt)];
      monthSet' := Add(monthSet', before, MonthKey(bs[i].createdAt));
    }
    assert bs[..|bs|] == bs;
  }

  /** `monthSet.add(m)` on the set of the months `added` so far. */
  method Add(monthSet: seq<string>, ghost added: seq<string>, m: string) returns (monthSet': seq<string>)
    requires monthSet == Dedup(added)
    ensures monthSet' == Dedup(added + [m])
    ensures forall x :: x in monthSet' <==> x in monthSet || x == m
  {
    assert (added + [m])[..|added|] == added;
    DedupSpec(added);
    if m in monthSet {
      monthSet' := monthSet;
    } else {
      monthSet' := monthSet + [m];
    }
  }
}
