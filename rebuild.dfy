/** The rebuild latch of `startDevServer` in scripts/serve.mjs: a watched-file
    event starts a build unless one is running, in which case it only marks
    a follow-up as pending; when a build finishes, a pending follow-up starts
    at once. Builds are sequential events here: `Change` is a watcher event,
    `Done` the completion of the running build with its outcome. */
module Rebuild {
  import opened Text

  /** A watcher event: a `Change` carries the changed path relative to the
      site root; `Done` ends the running build. */
  datatype Event = Change(path: string) | Done(error: Option<string>)

  /** The latch and what it has done so far: `current` is the path the
      running build was started for, `log` the lines written. */
  datatype Latch = Latch(building: bool, pending: bool, current: string,
                         started: nat, finished: nat, log: seq<string>)

  const Initial := Latch(false, false, "", 0, 0, [])

  /** A follow-up is pending only behind a running build, and at most one
      build runs at a time. */
  predicate Consistent(s: Latch) {
    && (s.pending ==> s.building)
    && s.started == s.finished + (if s.building then 1 else 0)
  }

  /** The line logged for a change; `path` is the changed file's path
      relative to the site root, as `path.relative(rootDir, changedPath)`
      gives it. */
  function ChangeLine(path: string): string {
    "文件变更: " + path
  }

  /** The line written when a build ends: success, or the error's message. */
  function DoneLine(error: Option<string>): string {
    match error
    case None => "重新构建完成"
    case Some(msg) => "构建出错: " + msg
  }

  /** One event. A completion while nothing runs does not occur; it leaves
      the latch as it is. */
  function Apply(s: Latch, e: Event): (t: Latch)
    ensures Consistent(s) ==> Consistent(t)
  {
    match e
    case Change(p) =>
      if s.building then s.(pending := true)
      else s.(building := true, current := p, started := s.started + 1,
               log := s.log + [ChangeLine(p)])
    case Done(error) =>
      if !s.building then s
      else
        var ended := s.(finished := s.finished + 1, log := s.log + [DoneLine(error)]);
        if s.pending then
          ended.(pending := false, started := s.started + 1,
                 log := ended.log + [ChangeLine(s.current)])
        else ended.(building := false)
  }

  /** A series of events, in order. */
  function Run(s: Latch, events: seq<Event>): Latch
    decreases |events|
  {
    if events == [] then s else Run(Apply(s, events[0]), events[1..])
  }

  lemma {:induction false} RunConsistent(s: Latch, events: seq<Event>)
    requires Consistent(s)
    ensures Consistent(Run(s, events))
    decreases |events|
  {
    if events != [] {
      RunConsistent(Apply(s, events[0]), events[1..]);
    }
  }

  /** No two builds overlap: from the start, at most one build has been
      started and not finished, and never more started than events seen. */
  lemma NeverOverlap(events: seq<Event>)
    ensures Run(Initial, events).started <= Run(Initial, events).finished + 1
    ensures Run(Initial, events).finished <= Run(Initial, events).started
  {
    RunConsistent(Initial, events);
  }

  lemma {:induction false} RunAppend(s: Latch, a: seq<Event>, b: seq<Event>)
    ensures Run(s, a + b) == Run(Run(s, a), b)
    decreases |a|
  {
    if a != [] {
      assert (a + b)[0] == a[0];
      assert (a + b)[1..] == a[1..] + b;
      RunAppend(Apply(s, a[0]), a[1..], b);
    } else {
      assert a + b == b;
    }
  }

  predicate AllChanges(events: seq<Event>) {
    forall i :: 0 <= i < |events| ==> events[i].Change?
  }

  /** Changes that arrive during a build only mark a follow-up: no build
      starts and nothing is logged. */
  lemma {:induction false} ChangesWhileBuilding(s: Latch, events: seq<Event>)
    requires s.building && AllChanges(events)
    ensures Run(s, events) == s.(pending := s.pending || events != [])
    decreases |events|
  {
    if events != [] {
      var t := Apply(s, events[0]);
      assert t == s.(pending := true);
      assert AllChanges(events[1..]) by {
        forall i | 0 <= i < |events[1..]| ensures events[1..][i].Change? {
          assert events[1..][i] == events[i + 1];
        }
      }
      ChangesWhileBuilding(t, events[1..]);
    }
  }

  /** Any number (at least one) of changes during a build cause exactly one
      follow-up build, started when the running build ends, for the path
      the ended build was started for. */
  lemma OneFollowUp(s: Latch, changes: seq<Event>, error: Option<string>)
    requires s.building && AllChanges(changes) && changes != []
    ensures Run(s, changes + [Done(error)])
      == s.(pending := false, started := s.started + 1, finished := s.finished + 1,
            log := s.log + [DoneLine(error), ChangeLine(s.current)])
  {
    RunAppend(s, changes, [Done(error)]);
    ChangesWhileBuilding(s, changes);
    var t := s.(pending := true);
    assert Run(t, [Done(error)]) == Apply(t, Done(error));
    assert s.log + [DoneLine(error)] + [ChangeLine(s.current)]
      == s.log + [DoneLine(error), ChangeLine(s.current)];
  }

  /** A build that ends, well or badly, with nothing pending releases the
      latch, so the next change starts a new build. */
  lemma FailureReleases(s: Latch, error: Option<string>, p: string)
    requires s.building && !s.pending
    ensures !Apply(s, Done(error)).building
    ensures Apply(Apply(s, Done(error)), Change(p)).started == s.started + 1
    ensures Apply(Apply(s, Done(error)), Change(p)).building
  {
  }

  /** A change with no build running starts one at once. */
  lemma IdleChangeStarts(s: Latch, p: string)
    requires !s.building
    ensures Apply(s, Change(p)).building && Apply(s, Change(p)).current == p
    ensures Apply(s, Change(p)).started == s.started + 1
    ensures Apply(s, Change(p)).log == s.log + [ChangeLine(p)]
  {
  }

  /** The latch as the closure in `startDevServer` holds it. */
  class Rebuilder {
    var building: bool
    var pending: bool
    var current: string
    var started: nat
    var finished: nat
    var log: seq<string>

    function State(): Latch
      reads this
    {
      Latch(building, pending, current, started, finished, log)
    }

    ghost predicate Valid()
      reads this
    {
      Consistent(State())
    }

    constructor()
      ensures Valid() && State() == Initial
    {
      building := false;
      pending := false;
      current := "";
      started := 0;
      finished := 0;
      log := [];
    }

    /** `rebuild(changedPath)` as a watcher event handler: returns whether a
        build was started. */
    method OnChange(path: string) returns (starts: bool)
      requires Valid()
      modifies this
      ensures Valid()
      ensures State() == Apply(old(State()), Change(path))
      ensures starts <==> !old(building)
    {
      if building {
        pending := true;
        starts := false;
        return;
      }
      building := true;
      current := path;
      started := started + 1;
      log := log + [ChangeLine(path)];
      starts := true;
    }

    /** The running build has ended with `error` (`None` on success): log
        the outcome, release the latch, and start the pending follow-up if
        there is one. Returns whether it started one. */
    method OnBuildDone(error: Option<string>) returns (followUp: bool)
      requires Valid() && building
      modifies this
      ensures Valid()
      ensures State() == Apply(old(State()), Done(error))
      ensures followUp <==> old(pending)
    {
      log := log + [DoneLine(error)];
      finished := finished + 1;
      building := false;
      followUp := false;
      if pending {
        pending := false;
        building := true;
        started := started + 1;
        log := log + [ChangeLine(current)];
        followUp := true;
      }
    }
  }
}
