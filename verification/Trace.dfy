/** The history of a work unit: what the daemon did to which issue, in order. A proof device; the
    session report of the daemon records the same kind of events. */
module Tracing {
  import opened Prelude
  import opened Dag
  import opened Labels

  /** Declared treatments of a parked issue (chain/daemon/park.py, ParkClass). */
  datatype ParkClass = Charged | Uncharged | StateIntact | UnknownState | Terminal

  /** A park carries the labels that were read for it and whether it exhausted the failure budget. */
  datatype Event =
    | Relabel(issue: Issue, edit: LabelEdit)
    | Launch(issue: Issue)
    | Merged(issue: Issue)
    | Parked(issue: Issue, parkClass: ParkClass, read: Option<set<Label>>, exhausted: bool)
    | Alert(issue: Issue)

  /** The label transition that must announce a worker launch. */
  const START_EDIT := LabelEdit([AgentInProgress], [AgentReady])

  /** What a refused preflight makes of it: the issue stays visible to later polls. */
  const REFUSED_EDIT := LabelEdit([AgentReady], [AgentInProgress])

  /** What happens to a crash orphan before it is dispatched again. */
  const CLEARED_EDIT := LabelEdit([], [AgentInProgress])

  /** What a gated merge does to the labels once agent-merged is on. */
  const MERGED_EDIT := LabelEdit([], [AgentInProgress, AgentDone])

  ghost function MergedIn(trace: seq<Event>): set<Issue> {
    set e | e in trace && e.Merged? :: e.issue
  }

  ghost function ParkedIn(trace: seq<Event>): set<Issue> {
    set e | e in trace && e.Parked? :: e.issue
  }

  ghost function LaunchedIn(trace: seq<Event>): set<Issue> {
    set e | e in trace && e.Launch? :: e.issue
  }

  /** An issue is launched at most once, after its start edit and after all its blockers were merged;
      it is merged at most once, also after its blockers; it is settled, by merge or park, only once. */
  ghost predicate Orderly(g: Graph, trace: seq<Event>) {
    forall i {:trigger InOrderAt(g, trace, i)} :: 0 <= i < |trace| ==> InOrderAt(g, trace, i)
  }

  ghost predicate InOrderAt(g: Graph, trace: seq<Event>, i: nat)
    requires i < |trace|
  {
    MayFollow(g, trace[..i], trace[i])
  }

  ghost predicate MayFollow(g: Graph, front: seq<Event>, last: Event) {
    match last
    case Launch(n) =>
      && n !in LaunchedIn(front) && n !in MergedIn(front) && n !in ParkedIn(front)
      && BlockersMerged(g, front, n)
      && front != [] && front[|front| - 1] == Relabel(n, START_EDIT)
    case Merged(n) => n !in MergedIn(front) && n !in ParkedIn(front) && BlockersMerged(g, front, n)
    case Parked(n, _, _, _) => n !in MergedIn(front) && n !in ParkedIn(front)
    case Relabel(_, _) => true
    case Alert(_) => true
  }

  ghost predicate BlockersMerged(g: Graph, trace: seq<Event>, n: Issue) {
    forall b :: b in Blockers(g, n) ==> b in MergedIn(trace)
  }

  lemma OneMore(g: Graph, trace: seq<Event>, e: Event)
    ensures MergedIn(trace + [e]) == MergedIn(trace) + if e.Merged? then {e.issue} else {}
    ensures ParkedIn(trace + [e]) == ParkedIn(trace) + if e.Parked? then {e.issue} else {}
    ensures LaunchedIn(trace + [e]) == LaunchedIn(trace) + if e.Launch? then {e.issue} else {}
    ensures Orderly(g, trace) && MayFollow(g, trace, e) ==> Orderly(g, trace + [e])
  {
    var longer := trace + [e];
    assert forall x :: x in longer <==> x in trace || x == e;
    if Orderly(g, trace) && MayFollow(g, trace, e) {
      forall i | 0 <= i < |longer| ensures InOrderAt(g, longer, i) {
        if i < |trace| {
          assert InOrderAt(g, trace, i);
          assert longer[..i] == trace[..i];
        } else {
          assert longer[..i] == trace;
        }
      }
    }
  }

  /** Topological safety over a run: nothing is launched or merged before all its blockers were merged. */
  lemma BlockersComeFirst(g: Graph, trace: seq<Event>, i: nat, b: Issue)
    requires Orderly(g, trace) && i < |trace| && (trace[i].Launch? || trace[i].Merged?)
    requires b in Blockers(g, trace[i].issue)
    ensures exists j :: 0 <= j < i && trace[j] == Merged(b)
  {
    assert InOrderAt(g, trace, i);
    var e :| e in trace[..i] && e.Merged? && e.issue == b;
    var j :| 0 <= j < |trace[..i]| && trace[..i][j] == e;
    assert trace[j] == Merged(b);
  }

  ghost predicate Settles(e: Event, n: Issue) {
    e == Merged(n) || (e.Parked? && e.issue == n)
  }

  /** At most once: no issue is launched twice, settled twice, or launched after it was settled. */
  lemma AtMostOnce(g: Graph, trace: seq<Event>, i: nat, j: nat, n: Issue)
    requires Orderly(g, trace) && i < j < |trace|
    ensures !(trace[i] == Launch(n) && trace[j] == Launch(n))
    ensures !(Settles(trace[i], n) && (Settles(trace[j], n) || trace[j] == Launch(n)))
  {
    assert InOrderAt(g, trace, j);
    assert trace[..j][i] == trace[i];
    assert trace[i] in trace[..j];
  }

  /** A launch is always announced by taking agent-ready away and marking the issue in progress. */
  lemma LaunchIsAnnounced(g: Graph, trace: seq<Event>, i: nat)
    requires Orderly(g, trace) && i < |trace| && trace[i].Launch?
    ensures i > 0 && trace[i - 1] == Relabel(trace[i].issue, START_EDIT)
  {
    assert InOrderAt(g, trace, i);
    assert trace[..i][i - 1] == trace[i - 1];
  }

  // ----- The history of one issue -----

  /** The events about an issue. */
  ghost function About(trace: seq<Event>, n: Issue): seq<Event> {
    if trace == [] then []
    else
      var front, last := trace[..|trace| - 1], trace[|trace| - 1];
      About(front, n) + if last.issue == n then [last] else []
  }

  ghost predicate AllAbout(events: seq<Event>, n: Issue) {
    forall e :: e in events ==> e.issue == n
  }

  lemma {:induction false} AboutAppend(a: seq<Event>, b: seq<Event>, n: Issue)
    ensures About(a + b, n) == About(a, n) + About(b, n)
    decreases |b|
  {
    if b == [] {
      assert a + b == a;
    } else {
      assert (a + b)[..|a + b| - 1] == a + b[..|b| - 1];
      AboutAppend(a, b[..|b| - 1], n);
    }
  }

  lemma {:induction false} AboutOne(events: seq<Event>, m: Issue, n: Issue)
    requires AllAbout(events, m)
    ensures About(events, n) == if n == m then events else []
  {
    if events != [] {
      var front, last := events[..|events| - 1], events[|events| - 1];
      assert events == front + [last] && last in events;
      AboutOne(front, m, n);
    }
  }

  lemma {:induction false} AboutNothing(events: seq<Event>, n: Issue)
    requires About(events, n) == []
    ensures forall i :: 0 <= i < |events| ==> events[i].issue != n
  {
    if events != [] { AboutNothing(events[..|events| - 1], n); }
  }

  /** `events` stand in the history without anything in between. */
  ghost predicate InOnePiece(trace: seq<Event>, events: seq<Event>) {
    exists at: nat {:trigger StandsAt(trace, events, at)} :: StandsAt(trace, events, at)
  }

  ghost predicate StandsAt(trace: seq<Event>, events: seq<Event>, at: nat) {
    at + |events| <= |trace| && trace[at..at + |events|] == events
  }

  lemma PieceStays(trace: seq<Event>, more: seq<Event>, events: seq<Event>)
    ensures InOnePiece(trace, events) ==> InOnePiece(trace + more, events)
    ensures InOnePiece(trace + more, more)
  {
    if InOnePiece(trace, events) {
      var at: nat :| StandsAt(trace, events, at);
      assert (trace + more)[at..at + |events|] == trace[at..at + |events|];
      assert StandsAt(trace + more, events, at);
    }
    assert StandsAt(trace + more, more, |trace|);
  }

  /** Events that are all there is about an issue and stand in one piece leave no room for others. */
  lemma NothingElse(trace: seq<Event>, n: Issue, at: nat)
    requires StandsAt(trace, About(trace, n), at)
    ensures forall i :: 0 <= i < |trace| && !(at <= i < at + |About(trace, n)|) ==> trace[i].issue != n
  {
    hide About;
    var events := About(trace, n);
    var end := at + |events|;
    AboutIsAbout(trace, n);
    assert trace == trace[..at] + events + trace[end..];
    OnlyThere(trace[..at], events, trace[end..], n);
    forall i | 0 <= i < |trace| && !(at <= i < end) ensures trace[i].issue != n {
      if i < at { assert trace[..at][i] == trace[i]; } else { assert trace[end..][i - end] == trace[i]; }
    }
  }

  lemma OnlyThere(a: seq<Event>, events: seq<Event>, b: seq<Event>, n: Issue)
    requires AllAbout(events, n) && events == About(a + events + b, n)
    ensures forall i :: 0 <= i < |a| ==> a[i].issue != n
    ensures forall i :: 0 <= i < |b| ==> b[i].issue != n
  {
    hide About;
    AboutOne(events, n, n);
    AboutAppend(a, events, n);
    AboutAppend(a + events, b, n);
    assert |events| == |About(a, n)| + |events| + |About(b, n)|;
    AboutNothing(a, n);
    AboutNothing(b, n);
  }

  lemma {:induction false} AboutIsAbout(trace: seq<Event>, n: Issue)
    ensures AllAbout(About(trace, n), n)
  {
    if trace != [] { AboutIsAbout(trace[..|trace| - 1], n); }
  }

  /** A history that has grown by `before` and then by `told`. */
  ghost predicate Extends(trace: seq<Event>, before: seq<Event>, told: seq<Event>, after: seq<Event>) {
    after == trace + before + told
  }

  lemma ExtendsAfter(trace: seq<Event>, first: seq<Event>, before: seq<Event>, told: seq<Event>, after: seq<Event>)
    requires Extends(trace + first, before, told, after)
    ensures Extends(trace, first + before, told, after)
  {
    assert trace + first + before == trace + (first + before);
  }
}
