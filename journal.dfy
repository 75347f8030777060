/** The journal state of the home page (src/app/page.tsx): the signed-in
    user, the three record lists and the running session, and the handlers
    that start, end, resume, add and edit records. A store write is a
    parameter `ok` (the write succeeded); the id and instant the store or
    the clock hands out are parameters too. */
module Journal {
  import opened Strings
  import opened Types

  // ---------------------------------------------------------------- list rewrites

  /** `continueSession`'s map: the sessions with that id run again. */
  function Resume(ss: seq<Session>, id: string): seq<Session> {
    seq(|ss|, i requires 0 <= i < |ss| =>
      if ss[i].id == id then ss[i].(status := Active, endTime := None) else ss[i])
  }

  /** `endSession`'s map: the sessions with that id end at `now`. */
  function Complete(ss: seq<Session>, id: string, now: Instant): seq<Session> {
    seq(|ss|, i requires 0 <= i < |ss| =>
      if ss[i].id == id then ss[i].(endTime := Some(now), status := Completed) else ss[i])
  }

  /** The session edit: a new goal for the sessions with that id. */
  function ReviseGoal(ss: seq<Session>, id: string, goal: string): seq<Session> {
    seq(|ss|, i requires 0 <= i < |ss| => if ss[i].id == id then ss[i].(goal := goal) else ss[i])
  }

  /** The idea edit: new text, and the new pictures when there are any;
      otherwise the old pictures stay. */
  function ReviseIdea(ideas: seq<Idea>, id: string, content: string, images: seq<string>): seq<Idea> {
    seq(|ideas|, i requires 0 <= i < |ideas| =>
      if ideas[i].id == id
      then ideas[i].(content := content, images := if |images| > 0 then Some(images) else ideas[i].images)
      else ideas[i])
  }

  /** The blocker edit: a new problem text. */
  function ReviseProblem(bs: seq<Blocker>, id: string, problem: string): seq<Blocker> {
    seq(|bs|, i requires 0 <= i < |bs| => if bs[i].id == id then bs[i].(problem := problem) else bs[i])
  }

  /** `find(s => s.id === id)`: the first session with that id. */
  function FindId(ss: seq<Session>, id: string): Option<Session> {
    if ss == [] then None
    else if ss[0].id == id then Some(ss[0])
    else FindId(ss[1..], id)
  }

  /** `find(s => s.status === "active")`: the first running session. */
  function FindActive(ss: seq<Session>): Option<Session> {
    if ss == [] then None
    else if ss[0].status == Active then Some(ss[0])
    else FindActive(ss[1..])
  }

  // ---------------------------------------------------------------- the invariant

  predicate UniqueIds(ss: seq<Session>) {
    forall i, j :: 0 <= i < j < |ss| ==> ss[i].id != ss[j].id
  }

  predicate NoneRunning(ss: seq<Session>) {
    forall i :: 0 <= i < |ss| ==> ss[i].status == Completed
  }

  /** The session with id `id` runs, and no other does. */
  predicate OnlyRunning(ss: seq<Session>, id: string) {
    && (exists i :: 0 <= i < |ss| && ss[i].id == id && ss[i].status == Active)
    && (forall i :: 0 <= i < |ss| && ss[i].status == Active ==> ss[i].id == id)
  }

  /** The page's view of the running session agrees with the list: with no
      running session none in the list runs; otherwise exactly the session
      with its id runs. Ids are those the store hands out, so no two
      sessions share one. */
  predicate Consistent(ss: seq<Session>, active: Option<Session>) {
    && UniqueIds(ss)
    && match active
       case None => NoneRunning(ss)
       case Some(a) => a.status == Active && OnlyRunning(ss, a.id)
  }

  /** No session after a running one runs too. */
  predicate AtMostOneActive(ss: seq<Session>) {
    forall i, j :: 0 <= i < j < |ss| && ss[i].status == Active ==> ss[j].status != Active
  }

  /** At most one session runs. */
  lemma AtMostOneRunning(ss: seq<Session>, active: Option<Session>)
    requires Consistent(ss, active)
    ensures forall i, j :: 0 <= i < |ss| && 0 <= j < |ss| && ss[i].status == Active && ss[j].status == Active ==> i == j
  {
  }

  // ---------------------------------------------------------------- finding

  /** `find` by id: nothing when no session has the id, otherwise a listed
      session with the id, the first one (FindIdFirst). */
  lemma {:induction false} FindIdSpec(ss: seq<Session>, id: string)
    ensures FindId(ss, id).None? <==> forall i :: 0 <= i < |ss| ==> ss[i].id != id
    ensures FindId(ss, id).Some? ==> FindId(ss, id).value.id == id
    ensures FindId(ss, id).Some? ==> FindId(ss, id).value in ss
  {
    if ss != [] && ss[0].id != id {
      FindIdSpec(ss[1..], id);
    }
  }

  /** The session `find` returns is the first with the id: every session
      listed before it has another id. */
  lemma {:induction false} FindIdFirst(ss: seq<Session>, id: string)
    ensures FindId(ss, id).Some? ==>
      exists i :: 0 <= i < |ss| && ss[i] == FindId(ss, id).value && (forall j :: 0 <= j < i ==> ss[j].id != id)
  {
    if ss != [] && ss[0].id != id {
      var rest := ss[1..];
      FindIdFirst(rest, id);
      if FindId(rest, id).Some? {
        var i :| 0 <= i < |rest| && rest[i] == FindId(rest, id).value && (forall j :: 0 <= j < i ==> rest[j].id != id);
        assert ss[i + 1] == rest[i];
        assert forall j :: 0 < j < i + 1 ==> ss[j] == rest[j - 1];
      }
    }
  }

  /** `find` of the running session: nothing when none runs, otherwise a
      listed running session, the first one (FindActiveFirst). */
  lemma {:induction false} FindActiveSpec(ss: seq<Session>)
    ensures FindActive(ss).None? <==> NoneRunning(ss)
    ensures FindActive(ss).Some? ==> FindActive(ss).value.status == Active
    ensures FindActive(ss).Some? ==> FindActive(ss).value in ss
  {
    if ss != [] && ss[0].status != Active {
      FindActiveSpec(ss[1..]);
    }
  }

  /** The session `find` returns is the first running one: no session
      listed before it runs. */
  lemma {:induction false} FindActiveFirst(ss: seq<Session>)
    ensures FindActive(ss).Some? ==>
      exists i :: 0 <= i < |ss| && ss[i] == FindActive(ss).value && (forall j :: 0 <= j < i ==> ss[j].status != Active)
  {
    if ss != [] && ss[0].status != Active {
      var rest := ss[1..];
      FindActiveFirst(rest);
      if FindActive(rest).Some? {
        var i :| 0 <= i < |rest| && rest[i] == FindActive(rest).value && (forall j :: 0 <= j < i ==> rest[j].status != Active);
        assert ss[i + 1] == rest[i];
        assert forall j :: 0 < j < i + 1 ==> ss[j] == rest[j - 1];
      }
    }
  }

  // ---------------------------------------------------------------- what each rewrite keeps

  /** Ending and resuming touch only the sessions with the id: every other
      session is left as it was. Ending then resuming is resuming, and
      resuming then ending is ending. */
  lemma ResumeComplete(ss: seq<Session>, id: string, now: Instant)
    ensures Resume(Complete(ss, id, now), id) == Resume(ss, id)
    ensures Complete(Resume(ss, id), id, now) == Complete(ss, id, now)
    ensures forall i :: 0 <= i < |ss| && ss[i].id != id ==> Resume(ss, id)[i] == ss[i] && Complete(ss, id, now)[i] == ss[i]
  {
  }

  /** Edits change one field of the records with the id, and nothing else;
      doing an edit twice is doing it once. */
  lemma EditsLocal(ss: seq<Session>, ideas: seq<Idea>, bs: seq<Blocker>, id: string, text: string, images: seq<string>)
    ensures forall i :: 0 <= i < |ss| ==> ReviseGoal(ss, id, text)[i].(goal := ss[i].goal) == ss[i]
    ensures forall i :: 0 <= i < |ss| && ss[i].id != id ==> ReviseGoal(ss, id, text)[i] == ss[i]
    ensures forall i :: 0 <= i < |ideas| ==> ReviseIdea(ideas, id, text, images)[i].(content := ideas[i].content, images := ideas[i].images) == ideas[i]
    ensures forall i :: 0 <= i < |ideas| && ideas[i].id != id ==> ReviseIdea(ideas, id, text, images)[i] == ideas[i]
    ensures forall i :: 0 <= i < |bs| ==> ReviseProblem(bs, id, text)[i].(problem := bs[i].problem) == bs[i]
    ensures forall i :: 0 <= i < |bs| && bs[i].id != id ==> ReviseProblem(bs, id, text)[i] == bs[i]
    ensures ReviseGoal(ReviseGoal(ss, id, text), id, text) == ReviseGoal(ss, id, text)
    ensures ReviseIdea(ReviseIdea(ideas, id, text, images), id, text, images) == ReviseIdea(ideas, id, text, images)
    ensures ReviseProblem(ReviseProblem(bs, id, text), id, text) == ReviseProblem(bs, id, text)
  {
  }

  /** An idea edit without new pictures keeps each idea's pictures. */
  lemma IdeaEditKeepsImages(ideas: seq<Idea>, id: string, content: string)
    ensures forall i :: 0 <= i < |ideas| ==> ReviseIdea(ideas, id, content, [])[i].images == ideas[i].images
  {
  }

  // ---------------------------------------------------------------- what each step keeps

  /** The same ids, at the same places. */
  predicate SameIds(a: seq<Session>, b: seq<Session>) {
    |a| == |b| && forall i :: 0 <= i < |a| ==> a[i].id == b[i].id
  }

  lemma UniqueIdsKept(a: seq<Session>, b: seq<Session>)
    requires UniqueIds(a) && SameIds(a, b)
    ensures UniqueIds(b)
  {
    forall i, j | 0 <= i < j < |b| ensures b[i].id != b[j].id {
      assert a[i].id != a[j].id;
    }
  }

  /** Starting a session with a new id when none runs. */
  lemma StartKeeps(ss: seq<Session>, s: Session)
    requires Consistent(ss, None)
    requires s.status == Active
    requires forall i :: 0 <= i < |ss| ==> ss[i].id != s.id
    ensures Consistent([s] + ss, Some(s))
  {
    var r := [s] + ss;
    assert r[0] == s;
    assert forall i :: 0 < i < |r| ==> r[i] == ss[i - 1];
  }

  /** Ending the running session leaves none running. */
  lemma EndKeeps(ss: seq<Session>, a: Session, now: Instant)
    requires Consistent(ss, Some(a))
    ensures Consistent(Complete(ss, a.id, now), None)
  {
    UniqueIdsKept(ss, Complete(ss, a.id, now));
  }

  /** Resuming a session when none runs leaves exactly that one running, and
      the page's running session is the resumed one; resuming an unknown id
      changes nothing. */
  lemma ResumeKeeps(ss: seq<Session>, id: string)
    requires Consistent(ss, None)
    ensures var r := Resume(ss, id);
      Consistent(r, FindId(r, id))
  {
    var r := Resume(ss, id);
    UniqueIdsKept(ss, r);
    FindIdSpec(r, id);
    assert forall i :: 0 <= i < |r| && r[i].status == Active ==> r[i].id == id;
    if FindId(r, id).Some? {
      var k :| 0 <= k < |r| && r[k] == FindId(r, id).value;
      assert r[k].status == Active;
    } else {
      assert NoneRunning(r);
    }
  }

  /** Edits change no status, so they keep the invariant. */
  lemma EditKeeps(ss: seq<Session>, active: Option<Session>, id: string, goal: string)
    requires Consistent(ss, active)
    ensures Consistent(ReviseGoal(ss, id, goal), active)
  {
    var r := ReviseGoal(ss, id, goal);
    UniqueIdsKept(ss, r);
    assert forall i :: 0 <= i < |r| ==> r[i].status == ss[i].status;
    if active.Some? {
      var k :| 0 <= k < |ss| && ss[k].id == active.value.id && ss[k].status == Active;
      assert r[k].id == active.value.id && r[k].status == Active;
    }
  }

  /** Loading takes the first running session as the page's one; the lists
      from the store agree with it when at most one session runs. */
  lemma LoadKeeps(ss: seq<Session>)
    requires UniqueIds(ss)
    requires AtMostOneActive(ss)
    ensures Consistent(ss, FindActive(ss))
  {
    FindActiveSpec(ss);
    if FindActive(ss).Some? {
      var k :| 0 <= k < |ss| && ss[k] == FindActive(ss).value;
      assert forall i :: 0 <= i < |ss| && ss[i].status == Active ==> i == k;
    }
  }

  // ---------------------------------------------------------------- what the record fields promise

  /** A session has no end exactly while it runs: a null `end_time` marks a
      session in progress. */
  predicate SessionsShaped(ss: seq<Session>) {
    forall i :: 0 <= i < |ss| ==> (ss[i].endTime.None? <==> ss[i].status == Active)
  }

  /** A blocker without a solution is still open: a null `solution` marks an
      unresolved blocker. */
  predicate BlockersShaped(bs: seq<Blocker>) {
    forall i :: 0 <= i < |bs| ==> (bs[i].solution.None? ==> bs[i].status == Open)
  }

  /** Starting, ending, resuming and editing set a session's end and status
      together, so a null end still marks exactly the running sessions. */
  lemma SessionShapesKept(ss: seq<Session>, s: Session, id: string, now: Instant, goal: string)
    requires SessionsShaped(ss)
    ensures s.endTime.None? && s.status == Active ==> SessionsShaped([s] + ss)
    ensures SessionsShaped(Complete(ss, id, now))
    ensures SessionsShaped(Resume(ss, id))
    ensures SessionsShaped(ReviseGoal(ss, id, goal))
  {
    var r := [s] + ss;
    assert forall i :: 0 < i < |r| ==> r[i] == ss[i - 1];
  }

  /** A new blocker is open with no solution, and an edit changes only the
      problem, so a null solution still marks an open blocker. */
  lemma BlockerShapesKept(bs: seq<Blocker>, b: Blocker, id: string, problem: string)
    requires BlockersShaped(bs)
    ensures b.solution.None? && b.status == Open ==> BlockersShaped([b] + bs)
    ensures BlockersShaped(ReviseProblem(bs, id, problem))
  {
    var r := [b] + bs;
    assert forall i :: 0 < i < |r| ==> r[i] == bs[i - 1];
  }

  /** Sessions the page can take over from the store as they are: distinct
      ids, at most one running, and a null end exactly on the running one. */
  predicate Loadable(ss: seq<Session>) {
    UniqueIds(ss) && AtMostOneActive(ss) && SessionsShaped(ss)
  }

  // ---------------------------------------------------------------- the page state

  class JournalPage {
    /** The signed-in user's id, if any. */
    var user: Option<string>
    var sessions: seq<Session>
    var ideas: seq<Idea>
    var blockers: seq<Blocker>
    var activeSession: Option<Session>

    ghost predicate Valid()
      reads this
    {
      Consistent(sessions, activeSession) && SessionsShaped(sessions) && BlockersShaped(blockers)
    }

    /** The page before anything is loaded. */
    constructor (user: Option<string>)
      ensures this.user == user
      ensures sessions == [] && ideas == [] && blockers == [] && activeSession == None
      ensures Valid()
    {
      this.user := user;
      sessions := [];
      ideas := [];
      blockers := [];
      activeSession := None;
    }

    /** `loadData`: each list the store returns replaces the page's one; the
        running session is the first running one of the new sessions. */
    method LoadData(sessionsRes: Option<seq<Session>>, ideasRes: Option<seq<Idea>>, blockersRes: Option<seq<Blocker>>)
      modifies this
      ensures user == old(user)
      ensures old(user).None? ==> unchanged(this)
      ensures old(user).Some? ==>
        && sessions == (if sessionsRes.Some? then sessionsRes.value else old(sessions))
        && activeSession == (if sessionsRes.Some? then FindActive(sessionsRes.value) else old(activeSession))
        && ideas == (if ideasRes.Some? then ideasRes.value else old(ideas))
        && blockers == (if blockersRes.Some? then blockersRes.value else old(blockers))
      ensures old(Valid()) && old(user).None? ==> Valid()
      ensures old(user).Some?
        && (if sessionsRes.Some? then Loadable(sessionsRes.value)
            else old(Consistent(sessions, activeSession) && SessionsShaped(sessions)))
        && (if blockersRes.Some? then BlockersShaped(blockersRes.value) else old(BlockersShaped(blockers)))
        ==> Valid()
    {
      if user.None? {
        return;
      }
      if sessionsRes.Some? {
        sessions := sessionsRes.value;
        activeSession := FindActive(sessions);
        if Loadable(sessions) {
          LoadKeeps(sessions);
        }
      }
      if ideasRes.Some? {
        ideas := ideasRes.value;
      }
      if blockersRes.Some? {
        blockers := blockersRes.value;
      }
    }

    /** `startSession`: refused for a blank goal, while a session runs, or
        without a user; otherwise, once stored, the new session with id `id`
        starting at `now` heads the list and runs. The page stays consistent
        when the store's id is new, as the store's ids are. */
    method StartSession(input: string, ok: bool, id: string, now: Instant)
      requires Valid()
      modifies this
      ensures (forall i :: 0 <= i < |old(sessions)| ==> old(sessions)[i].id != id) ==> Valid()
      ensures user == old(user) && ideas == old(ideas) && blockers == old(blockers)
      ensures Trim(input) == "" || old(activeSession).Some? || old(user).None? || !ok ==>
        sessions == old(sessions) && activeSession == old(activeSession)
      ensures Trim(input) != "" && old(activeSession).None? && old(user).Some? && ok ==>
        var s := Session(id, old(user).value, Trim(input), now, None, Active);
        sessions == [s] + old(sessions) && activeSession == Some(s)
    {
      if Trim(input) == "" || activeSession.Some? || user.None? {
        return;
      }
      if ok {
        var s := Session(id, user.value, Trim(input), now, None, Active);
        if forall i :: 0 <= i < |sessions| ==> sessions[i].id != id {
          StartKeeps(sessions, s);
        }
        sessions := [s] + sessions;
        activeSession := Some(s);
      }
    }

    /** `endSession`: with a running session, once stored, the sessions with
        its id end at `now` and none runs. */
    method EndSession(ok: bool, now: Instant)
      requires Valid()
      modifies this
      ensures Valid()
      ensures user == old(user) && ideas == old(ideas) && blockers == old(blockers)
      ensures old(activeSession).None? || !ok ==> sessions == old(sessions) && activeSession == old(activeSession)
      ensures old(activeSession).Some? && ok ==>
        sessions == Complete(old(sessions), old(activeSession).value.id, now) && activeSession == None
    {
      if activeSession.None? {
        return;
      }
      if ok {
        EndKeeps(sessions, activeSession.value, now);
        sessions := Complete(sessions, activeSession.value.id, now);
        activeSession := None;
      }
    }

    /** `continueSession`: refused while a session runs or without a user;
        otherwise, once stored, the session with that id runs again with no
        end, and becomes the page's running session when the list has it. */
    method ContinueSession(id: string, ok: bool)
      requires Valid()
      modifies this
      ensures Valid()
      ensures user == old(user) && ideas == old(ideas) && blockers == old(blockers)
      ensures old(activeSession).Some? || old(user).None? || !ok ==>
        sessions == old(sessions) && activeSession == old(activeSession)
      ensures old(activeSession).None? && old(user).Some? && ok ==>
        sessions == Resume(old(sessions), id) && activeSession == FindId(sessions, id)
    {
      if activeSession.Some? || user.None? {
        return;
      }
      if ok {
        ResumeKeeps(sessions, id);
        sessions := Resume(sessions, id);
        var resumed := FindId(sessions, id);
        if resumed.Some? {
          activeSession := resumed;
        }
      }
    }

    /** `addIdea`: refused when both text and pictures are empty, or without
        a user; otherwise, once stored, the new idea heads the list, with
        its pictures or none. */
    method AddIdea(input: string, images: seq<string>, ok: bool, id: string, now: Instant)
      requires Valid()
      modifies this
      ensures Valid()
      ensures user == old(user) && sessions == old(sessions) && activeSession == old(activeSession)
      ensures blockers == old(blockers)
      ensures (Trim(input) == "" && images == []) || old(user).None? || !ok ==> ideas == old(ideas)
      ensures (Trim(input) != "" || images != []) && old(user).Some? && ok ==>
        ideas == [Idea(id, old(user).value, Trim(input), now, if images != [] then Some(images) else None)] + old(ideas)
    {
      if (Trim(input) == "" && |images| == 0) || user.None? {
        return;
      }
      if ok {
        ideas := [Idea(id, user.value, Trim(input), now, if |images| > 0 then Some(images) else None)] + ideas;
      }
    }

    /** `addBlocker`: refused for a blank problem or without a user;
        otherwise, once stored, the new open blocker heads the list. */
    method AddBlocker(input: string, ok: bool, id: string, now: Instant)
      requires Valid()
      modifies this
      ensures Valid()
      ensures user == old(user) && sessions == old(sessions) && activeSession == old(activeSession)
      ensures ideas == old(ideas)
      ensures Trim(input) == "" || old(user).None? || !ok ==> blockers == old(blockers)
      ensures Trim(input) != "" && old(user).Some? && ok ==>
        blockers == [Blocker(id, old(user).value, Trim(input), None, Open, now, None)] + old(blockers)
    {
      if Trim(input) == "" || user.None? {
        return;
      }
      if ok {
        blockers := [Blocker(id, user.value, Trim(input), None, Open, now, None)] + blockers;
      }
    }

    /** The session edit of `handleSubmit`: once stored, the session with
        that id gets the trimmed goal. */
    method EditSession(editingId: string, input: string, ok: bool)
      requires Valid()
      modifies this
      ensures Valid()
      ensures user == old(user) && ideas == old(ideas) && blockers == old(blockers)
      ensures activeSession == old(activeSession)
      ensures sessions == if ok then ReviseGoal(old(sessions), editingId, Trim(input)) else old(sessions)
    {
      if ok {
        EditKeeps(sessions, activeSession, editingId, Trim(input));
        sessions := ReviseGoal(sessions, editingId, Trim(input));
      }
    }

    /** The idea edit of `handleSubmit`: once stored, the idea with that id
        gets the trimmed text, and the new pictures if there are any. */
    method EditIdea(editingId: string, input: string, images: seq<string>, ok: bool)
      requires Valid()
      modifies this
      ensures Valid()
      ensures user == old(user) && sessions == old(sessions) && blockers == old(blockers)
      ensures activeSession == old(activeSession)
      ensures ideas == if ok then ReviseIdea(old(ideas), editingId, Trim(input), images) else old(ideas)
    {
      if ok {
        ideas := ReviseIdea(ideas, editingId, Trim(input), images);
      }
    }

    /** The blocker edit of `handleSubmit`: once stored, the blocker with
        that id gets the trimmed problem. */
    method EditBlocker(editingId: string, input: string, ok: bool)
      requires Valid()
      modifies this
      ensures Valid()
      ensures user == old(user) && sessions == old(sessions) && ideas == old(ideas)
      ensures activeSession == old(activeSession)
      ensures blockers == if ok then ReviseProblem(old(blockers), editingId, Trim(input)) else old(blockers)
    {
      if ok {
        blockers := ReviseProblem(blockers, editingId, Trim(input));
      }
    }
  }
}
